/** The deadline and capped backoff that pop, remove and wait_until_ready share.  Times are in
    milliseconds. */
module Timing {
  import opened Sequences

  /** A requested sleep, and the clock reading it was computed from. */
  datatype Nap = Nap(at: real, length: real)

  /** A monotone clock.  The k-th time it is used, some arbitrary time has passed. */
  class Clock {
    const lapses: nat -> real
    var now: real
    var uses: nat
    var naps: seq<Nap>

    constructor (lapses: nat -> real, now: real)
      ensures this.lapses == lapses && this.now == now && naps == []
    {
      this.lapses := lapses;
      this.now := now;
      uses := 0;
      naps := [];
    }

    /** No time passes but the time slept. */
    ghost predicate Exact() {
      forall k :: lapses(k) <= 0.0
    }

    method PerfCounter() returns (t: real)
      modifies this
      ensures t == now >= old(now) && naps == old(naps)
      ensures Exact() ==> now == old(now)
    {
      if lapses(uses) > 0.0 { now := now + lapses(uses); }
      uses := uses + 1;
      t := now;
    }

    method Sleep(at: real, length: real)
      requires length > 0.0
      modifies this
      ensures now >= old(now) + length && naps == old(naps) + [Nap(at, length)]
      ensures Exact() ==> now == old(now) + length
    {
      now := now + length;
      if lapses(uses) > 0.0 { now := now + lapses(uses); }
      uses := uses + 1;
      naps := naps + [Nap(at, length)];
    }
  }

  function Slept(naps: seq<Nap>): real
    decreases |naps|
  {
    if naps == [] then 0.0 else Slept(Front(naps)) + Last(naps).length
  }

  /** interval_millis after n sleeps that the deadline did not cut, and the sum of those sleeps. */
  function Interval(n: nat): real {
    if n == 0 then 50.0 else if n == 1 then 550.0 else 1000.0
  }

  function FullSleep(n: nat): real {
    if n == 0 then 0.0 else 550.0 + 1000.0 * (n - 1) as real
  }

  /** The first sleep lasts 550, every other 1000, unless less is left; and something is left. */
  ghost predicate Fits(timeout: real, start: real, first: bool, nap: Nap) {
    var full := if first then 550.0 else 1000.0;
    var left := timeout - (nap.at - start);
    left > 0.0 && nap.length == if full > left then left else full
  }

  /** So every sleep asked for is positive, at most a second, and not past the deadline. */
  lemma FittingSleepIsBounded(timeout: real, start: real, first: bool, nap: Nap)
    requires Fits(timeout, start, first, nap)
    ensures 0.0 < nap.length <= 1000.0 && nap.at - start + nap.length <= timeout
  {
  }

  ghost predicate WithinBudget(timeout: real, start: real, naps: seq<Nap>) {
    && (forall k :: 0 <= k < |naps| ==> Fits(timeout, start, k == 0, naps[k]))
    && (naps != [] ==> Slept(naps) <= timeout)
  }

  /** Where the loop stands after sleeping |naps| times: either every sleep was full, or the last one
      was cut to the time that was left and the deadline has passed. */
  ghost predicate Paced(timeout: real, start: real, now: real, interval: real, naps: seq<Nap>, exact: bool) {
    var n := |naps|;
    && WithinBudget(timeout, start, naps)
    && Slept(naps) <= now - start
    && (exact ==> Slept(naps) == now - start)
    && (n > 0 ==> FullSleep(n - 1) < timeout)
    && (|| (interval == Interval(n) && Slept(naps) == FullSleep(n))
        || (n > 0 && now - start >= timeout && (exact ==> FullSleep(n) >= timeout)))
  }

  function Ceiling(x: real): (n: int)
    ensures x <= n as real < x + 1.0
  {
    -(-x).Floor
  }

  function AttemptBound(timeout: real): int {
    if timeout <= 0.0 then 1
    else 2 + Ceiling((if timeout > 550.0 then timeout - 550.0 else 0.0) / 1000.0)
  }

  /** A loop that slept n times has tried n + 1 times, which never exceeds the bound. */
  lemma AttemptsWithinBound(timeout: real, n: nat)
    requires n > 0 ==> FullSleep(n - 1) < timeout
    ensures n + 1 <= AttemptBound(timeout)
  {
    if n > 1 {
      assert timeout > 550.0 && (timeout - 550.0) / 1000.0 > (n - 2) as real;
    }
  }

  /** The bound is exact: a loop that only ever waits gives up at precisely that attempt. */
  lemma AttemptsReachBound(timeout: real, n: nat)
    requires n > 0 ==> FullSleep(n - 1) < timeout
    requires FullSleep(n) >= timeout
    ensures n + 1 == AttemptBound(timeout)
  {
    AttemptsWithinBound(timeout, n);
    if n > 0 && timeout > 550.0 {
      assert (timeout - 550.0) / 1000.0 <= (n - 1) as real;
    }
  }

  /** interval_millis before the deadline is looked at. */
  function Grown(interval: real): real {
    if interval + 500.0 > 1000.0 then 1000.0 else interval + 500.0
  }

  lemma PacedSleep(timeout: real, start: real, was: real, t: real, interval: real, naps: seq<Nap>,
                   next: real, now: real, exact: bool)
    requires Paced(timeout, start, was, interval, naps, exact)
    requires t >= was && t - start < timeout && (exact ==> t == was)
    requires next == (if Grown(interval) > timeout - (t - start) then timeout - (t - start) else Grown(interval))
    requires now >= t + next && (exact ==> now == t + next)
    ensures Paced(timeout, start, now, next, naps + [Nap(t, next)], exact)
    ensures FullSleep(|naps|) < timeout
  {
    assert Front(naps + [Nap(t, next)]) == naps;
    assert Slept(naps + [Nap(t, next)]) == Slept(naps) + next;
    assert interval == Interval(|naps|) && Slept(naps) == FullSleep(|naps|);
    assert FullSleep(|naps| + 1) == FullSleep(|naps|) + Grown(interval);
  }

  lemma PacedExpiry(timeout: real, start: real, was: real, interval: real, naps: seq<Nap>)
    requires Paced(timeout, start, was, interval, naps, true) && was - start >= timeout
    ensures |naps| + 1 == AttemptBound(timeout)
  {
    AttemptsReachBound(timeout, |naps|);
  }

  /** What the loop does after a failed attempt: grow and cap the interval, cut it to the time left,
      and give up or sleep.  naps are the sleeps so far. */
  method BackOff(clock: Clock, timeout: real, start: real, interval: real, ghost naps: seq<Nap>)
    returns (next: real, expired: bool, ghost slept: seq<Nap>)
    requires Paced(timeout, start, clock.now, interval, naps, clock.Exact())
    modifies clock
    ensures clock.naps == old(clock.naps) + slept
    ensures expired ==> slept == [] && clock.now - start >= timeout
    ensures expired && clock.Exact() ==> |naps| + 1 == AttemptBound(timeout)
    ensures !expired ==> |slept| == 1 && |naps| + 2 <= AttemptBound(timeout)
    ensures !expired ==> Paced(timeout, start, clock.now, next, naps + slept, clock.Exact())
  {
    ghost var was := clock.now;
    next := interval + 500.0;
    if next > 1000.0 { next := 1000.0; }
    var t := clock.PerfCounter();
    var timeLeft := timeout - (t - start);
    if next > timeLeft { next := timeLeft; }
    if timeLeft <= 0.0 {
      if clock.Exact() { PacedExpiry(timeout, start, was, interval, naps); }
      return next, true, [];
    }
    expired, slept := false, [Nap(t, next)];
    assert next > 0.0 by { assert naps == [] || interval == Interval(|naps|); }
    clock.Sleep(t, next);
    PacedSleep(timeout, start, was, t, interval, naps, next, clock.now, clock.Exact());
    AttemptsWithinBound(timeout, |naps| + 1);
  }

  /** One attempt without a timeout, two up to 550, and another for every second begun after that. */
  lemma BoundByTimeout(timeout: real, n: nat)
    ensures timeout <= 0.0 ==> AttemptBound(timeout) == 1
    ensures 0.0 < timeout <= 550.0 ==> AttemptBound(timeout) == 2
    ensures n > 0 && 550.0 + 1000.0 * (n - 1) as real < timeout <= 550.0 + 1000.0 * n as real ==>
              AttemptBound(timeout) == n + 2
  {
  }

  /** The default of ten seconds. */
  lemma DefaultBound()
    ensures AttemptBound(10000.0) == 12
  {
    BoundByTimeout(10000.0, 10);
  }
}
