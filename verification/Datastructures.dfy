/** The blocking data structures: their loops, run against a collection on which any number of other
    calls act between any two requests.  Each method is shown to be one call of the protocol, so what
    holds of every run of the protocol holds of it. */
module Datastructures {
  import opened Sequences
  import opened Server
  import opened Protocol
  import opened Linearizability
  import opened Progress
  import opened Timing

  /** The shared document, reached through requests.  others(k) is what other calls do before the k-th
      request, and choices(k) how the environment answers it; both are arbitrary. */
  class Collection {
    const others: nat -> seq<Action>
    const choices: nat -> Choice
    var world: State
    var requests: nat
    ghost var actions: seq<Action>
    /** The calls that Start began; all other calls are others'. */
    ghost var own: seq<nat>

    ghost predicate Valid()
      reads this
    {
      world == Run(actions)
    }

    constructor (others: nat -> seq<Action>, choices: nat -> Choice)
      ensures Valid() && actions == [] && own == [] && this.others == others && this.choices == choices
    {
      this.others, this.choices := others, choices;
      world, requests, actions, own := Initial, 0, [], [];
    }

    /** The call is known to the run, unfinished or not. */
    ghost predicate Has(call: nat, op: Op, pc: Pc)
      reads this
    {
      call < |world.calls| && world.calls[call].op == op && world.calls[call].pc == pc
    }

    /** The CAS mismatches that a call met. */
    ghost function Failures(call: nat): nat
      reads this
      requires call < |world.calls|
    {
      world.calls[call].failures
    }

    /** Lets the other calls act. */
    method Interfere(me: nat)
      requires Valid()
      modifies this
      ensures Valid() && old(actions) <= actions && own == old(own) && |old(world.calls)| <= |world.calls|
      ensures me < |old(world.calls)| ==> world.calls[me] == old(world.calls[me])
    {
      var script := others(requests);
      requests := requests + 1;
      for i := 0 to |script|
        invariant Valid() && old(actions) <= actions && own == old(own) && |old(world.calls)| <= |world.calls|
        invariant me < |old(world.calls)| ==> world.calls[me] == old(world.calls[me])
      {
        if !(script[i].Advance? && script[i].call == me) {
          RunSnoc(actions, script[i]);
          actions := actions + [script[i]];
          world := Do(world, script[i]);
        }
      }
    }

    method Start(op: Op) returns (me: nat)
      requires Valid()
      modifies this
      ensures Valid() && old(actions) <= actions && |old(world.calls)| <= me && Has(me, op, FirstPc(op))
      ensures Failures(me) == 0
      ensures own == old(own) + [me]
    {
      Interfere(|world.calls|);
      me := |world.calls|;
      RunSnoc(actions, Invoke(op));
      actions := actions + [Invoke(op)];
      world := Do(world, Invoke(op));
      own := own + [me];
    }

    /** Sends the request that call me is about to make. */
    method Send(me: nat, request: Request, expired: bool := false) returns (reply: Reply)
      requires Valid() && me < |world.calls| && !world.calls[me].pc.Done? && Pending(world.calls[me]) == request
      modifies this
      ensures Valid() && old(actions) <= actions && own == old(own)
      ensures Answers(request, reply) && (request.ReadClock? ==> reply == Expired(expired))
      ensures Has(me, old(world.calls[me].op), Receive(old(world.calls[me]), reply))
      ensures Failures(me) ==
              old(Failures(me)) + (if old(world.calls[me].pc.Guarded?) && reply.CasMismatch? then 1 else 0)
    {
      Interfere(me);
      var choice := choices(requests).(expired := expired);
      reply := Serve(world.server, me, request, choice).1;
      RunSnoc(actions, Advance(me, choice));
      actions := actions + [Advance(me, choice)];
      world := Do(world, Advance(me, choice));
    }
  }

  /** CouchbaseQueue and CouchbaseSet over one document. */
  class Structure {
    const collection: Collection
    const clock: Clock

    constructor (collection: Collection, clock: Clock)
      ensures this.collection == collection && this.clock == clock
    {
      this.collection, this.clock := collection, clock;
    }

    /** This method made one call: it began after the method did, ran as the protocol's call of op, and
        ended with outcome. */
    twostate predicate Ran(call: nat, op: Op, outcome: Outcome)
      reads this, collection
    {
      && collection.Valid() && old(collection.actions) <= collection.actions
      && |old(collection.world.calls)| <= call && collection.Has(call, op, Done(outcome))
      && collection.own == old(collection.own) + [call]
    }

    /** The method's one call is about to read, after sleeping for naps. */
    twostate predicate Trying(call: nat, op: Op, timeout: real, begun: real, interval: real, naps: seq<Nap>)
      reads this, collection, clock
    {
      && collection.Valid() && old(collection.actions) <= collection.actions
      && collection.own == old(collection.own) + [call] && |old(collection.world.calls)| <= call
      && collection.Has(call, op, FirstPc(op)) && collection.Failures(call) == |naps|
      && begun >= old(clock.now) && clock.naps == old(clock.naps) + naps && |naps| < AttemptBound(timeout)
      && Paced(timeout, begun, clock.now, interval, naps, clock.Exact())
    }

    /** Each sleep of a pop or remove, and its giving up, followed a CAS mismatch; others wrote at least as
        often since it began. */
    lemma RetriesAreBounded(call: nat, naps: seq<Nap>, outcome: Outcome)
      requires collection.Valid() && call < |collection.world.calls|
      requires collection.Failures(call) == |naps| + (if outcome.TimedOut? then 1 else 0)
      ensures var (c, writes) := (collection.world.calls[call], collection.world.server.writes);
              |naps| + (if outcome.TimedOut? then 1 else 0) <= OthersWrites(writes, c.begun, call)
    {
      FailuresAreBounded(collection.actions, call);
    }

    method Push(v: Json) returns (outcome: Outcome, ghost call: nat)
      requires collection.Valid()
      modifies collection
      ensures Ran(call, Protocol.Push(v), outcome)
      ensures outcome.Returned? || outcome.NoDocument?
    {
      var me := collection.Start(Protocol.Push(v));
      call := me;
      var reply := collection.Send(me, MutateIn(ArrayPrepend(v), 0));
      if reply.DocumentNotFound? {
        var _ := collection.Send(me, InsertEmpty);
        reply := collection.Send(me, MutateIn(ArrayPrepend(v), 0));
      }
      outcome := if reply.DocumentNotFound? then NoDocument else Returned;
    }

    method Add(v: Json) returns (outcome: Outcome, ghost call: nat)
      requires collection.Valid()
      modifies collection
      ensures Ran(call, Protocol.Add(v), outcome)
      ensures outcome.Flag? || outcome.NoDocument?
    {
      var me := collection.Start(Protocol.Add(v));
      call := me;
      var reply := collection.Send(me, MutateIn(ArrayAddUnique(v), 0));
      if reply.DocumentNotFound? {
        var _ := collection.Send(me, InsertEmpty);
        reply := collection.Send(me, MutateIn(ArrayAddUnique(v), 0));
      }
      outcome := if reply.DocumentNotFound? then NoDocument else Flag(!reply.PathExists?);
    }

    method Clear() returns (ghost call: nat)
      requires collection.Valid()
      modifies collection
      ensures Ran(call, Protocol.Clear, Returned)
    {
      var me := collection.Start(Protocol.Clear);
      call := me;
      var _ := collection.Send(me, RemoveDocument);
    }

    /** _get under its wrapper: a missing document is created once and read again. */
    method Get(me: nat) returns (reply: Reply)
      requires collection.Valid() && me < |collection.world.calls|
      requires var c := collection.world.calls[me];
               !c.op.Pop? && !c.op.Push? && !c.op.Add? && c.pc.Reading? && c.pc.creations > 0
      modifies collection
      ensures collection.Valid() && old(collection.actions) <= collection.actions
      ensures collection.own == old(collection.own)
      ensures me < |collection.world.calls| && collection.Failures(me) == old(collection.Failures(me))
      ensures var c := old(collection.world.calls[me]);
              && (reply.Contents? || reply.DocumentNotFound?)
              && collection.Has(me, c.op,
                   if reply.Contents? then AfterGet(c.op, reply.items, reply.cas)
                   else if c.pc.creations > 1 then Creating(c.pc.creations - 2) else Done(NoDocument))
    {
      reply := collection.Send(me, GetDocument);
      if reply.DocumentNotFound? {
        var _ := collection.Send(me, InsertEmpty);
        reply := collection.Send(me, GetDocument);
      }
    }

    method GetAll() returns (outcome: Outcome, ghost call: nat)
      requires collection.Valid()
      modifies collection
      ensures Ran(call, Protocol.GetAll, outcome)
      ensures outcome.Listed? || outcome.NoDocument?
    {
      var me := collection.Start(Protocol.GetAll);
      call := me;
      var reply := Get(me);
      outcome := if reply.Contents? then Listed(reply.items) else NoDocument;
    }

    /** contains is itself wrapped, around the wrapped _get. */
    method Contains(v: Json) returns (outcome: Outcome, ghost call: nat)
      requires collection.Valid()
      modifies collection
      ensures Ran(call, Protocol.Contains(v), outcome)
      ensures outcome.Flag? || outcome.NoDocument?
    {
      var me := collection.Start(Protocol.Contains(v));
      call := me;
      var reply := Get(me);
      if reply.DocumentNotFound? {
        var _ := collection.Send(me, InsertEmpty);
        reply := Get(me);
      }
      outcome := if reply.Contents? then Flag(v in reply.items) else NoDocument;
    }

    /** Tries at most AttemptBound times, asks for no sleep past the deadline, and, when only the sleeps
        take time, gives up at exactly that attempt. */
    method Pop(timeout: Option<real>)
      returns (outcome: Outcome, ghost call: nat, ghost start: real, ghost naps: seq<Nap>)
      requires collection.Valid()
      modifies collection, clock
      ensures Ran(call, Protocol.Pop, outcome)
      ensures outcome.Popped? || outcome.QueueEmpty? || outcome.NoDocument? || outcome.TimedOut?
      ensures start >= old(clock.now) && clock.naps == old(clock.naps) + naps
      ensures collection.Failures(call) == |naps| + (if outcome.TimedOut? then 1 else 0)
      ensures Timely(if timeout.Some? then timeout.value else 10000.0, start, naps, outcome)
    {
      var timeoutMillis := Timeout(timeout);
      var me := collection.Start(Protocol.Pop);
      call, naps := me, [];
      var interval := 50.0;
      var begun := clock.PerfCounter();
      start := begun;
      while true
        invariant start == begun && Trying(me, Protocol.Pop, timeoutMillis, begun, interval, naps)
        decreases AttemptBound(timeoutMillis) - |naps|
      {
        outcome := AttemptPop(me);
        if !outcome.TimedOut? { return; }
        var expired;
        ghost var slept;
        interval, expired, slept := Retry(me, timeoutMillis, begun, interval, naps);
        if expired { return; }
        naps := naps + slept;
      }
    }

    /** One pass through pop's try block: TimedOut stands for a CAS mismatch, after which pop may retry. */
    method AttemptPop(me: nat) returns (outcome: Outcome)
      requires collection.Valid() && collection.Has(me, Protocol.Pop, Reading(0))
      modifies collection
      ensures collection.Valid() && old(collection.actions) <= collection.actions
      ensures collection.own == old(collection.own)
      ensures outcome.Popped? || outcome.QueueEmpty? || outcome.NoDocument? || outcome.TimedOut?
      ensures collection.Has(me, Protocol.Pop, if outcome.TimedOut? then Pausing else Done(outcome))
      ensures collection.Failures(me) == old(collection.Failures(me)) + (if outcome.TimedOut? then 1 else 0)
    {
      var read := collection.Send(me, LookupLast);
      if read.PathNotFound? { return QueueEmpty; }
      if read.DocumentNotFound? { return NoDocument; }
      var reply := collection.Send(me, MutateIn(RemovePath(-1), read.cas));
      if reply.Ok? { return Popped(read.value); }
      if reply.PathNotFound? { return QueueEmpty; }
      if reply.DocumentNotFound? { return NoDocument; }
      return TimedOut;
    }

    method Remove(v: Json, timeout: Option<real>)
      returns (outcome: Outcome, ghost call: nat, ghost start: real, ghost naps: seq<Nap>)
      requires collection.Valid()
      modifies collection, clock
      ensures Ran(call, Protocol.Remove(v), outcome)
      ensures outcome.Returned? || outcome.NoDocument? || outcome.TimedOut?
      ensures start >= old(clock.now) && clock.naps == old(clock.naps) + naps
      ensures collection.Failures(call) == |naps| + (if outcome.TimedOut? then 1 else 0)
      ensures Timely(if timeout.Some? then timeout.value else 10000.0, start, naps, outcome)
    {
      var timeoutMillis := Timeout(timeout);
      var me := collection.Start(Protocol.Remove(v));
      call, naps := me, [];
      var interval := 50.0;
      var begun := clock.PerfCounter();
      start := begun;
      while true
        invariant start == begun && Trying(me, Protocol.Remove(v), timeoutMillis, begun, interval, naps)
        decreases AttemptBound(timeoutMillis) - |naps|
      {
        outcome := AttemptRemove(me, v);
        if !outcome.TimedOut? { return; }
        var expired;
        ghost var slept;
        interval, expired, slept := Retry(me, timeoutMillis, begun, interval, naps);
        if expired { return; }
        naps := naps + slept;
      }
    }

    /** One pass through remove's loop up to the backoff; TimedOut stands for a CAS mismatch. */
    method AttemptRemove(me: nat, v: Json) returns (outcome: Outcome)
      requires collection.Valid() && collection.Has(me, Protocol.Remove(v), Reading(1))
      modifies collection
      ensures collection.Valid() && old(collection.actions) <= collection.actions
      ensures collection.own == old(collection.own)
      ensures outcome.Returned? || outcome.NoDocument? || outcome.TimedOut?
      ensures collection.Has(me, Protocol.Remove(v), if outcome.TimedOut? then Pausing else Done(outcome))
      ensures collection.Failures(me) == old(collection.Failures(me)) + (if outcome.TimedOut? then 1 else 0)
    {
      var read := Get(me);
      if read.DocumentNotFound? { return NoDocument; }
      var index := FindFirst(read.items, v);
      if index < 0 { return Returned; }
      var reply := collection.Send(me, MutateIn(RemovePath(index), read.cas));
      NoPathIsNeverMissed(collection.actions, me);
      if reply.Ok? { return Returned; }
      if reply.DocumentNotFound? { return NoDocument; }
      return TimedOut;
    }

    /** After a CAS mismatch: back off, then read again or give up. */
    method Retry(me: nat, timeout: real, begun: real, interval: real, ghost naps: seq<Nap>)
      returns (next: real, expired: bool, ghost slept: seq<Nap>)
      requires collection.Valid() && me < |collection.world.calls| && collection.world.calls[me].pc.Pausing?
      requires Paced(timeout, begun, clock.now, interval, naps, clock.Exact())
      modifies collection, clock
      ensures collection.Valid() && old(collection.actions) <= collection.actions
      ensures collection.own == old(collection.own)
      ensures var op := old(collection.world.calls[me].op);
              collection.Has(me, op, if expired then Done(TimedOut) else FirstPc(op))
      ensures collection.Failures(me) == old(collection.Failures(me))
      ensures clock.naps == old(clock.naps) + slept
      ensures expired ==> slept == [] && clock.now - begun >= timeout
      ensures expired && clock.Exact() ==> |naps| + 1 == AttemptBound(timeout)
      ensures !expired ==> |slept| == 1 && |naps| + 2 <= AttemptBound(timeout)
      ensures !expired ==> Paced(timeout, begun, clock.now, next, naps + slept, clock.Exact())
    {
      next, expired, slept := BackOff(clock, timeout, begun, interval, naps);
      var _ := collection.Send(me, ReadClock, expired);
    }

    /** The search for val_idx in remove, and index_of. */
    method FindFirst(items: seq<Json>, v: Json) returns (index: int)
      ensures index == IndexOf(items, v)
    {
      for i := 0 to |items|
        invariant IndexOf(items, v) == (var rest := IndexOf(items[i..], v); if rest < 0 then -1 else i + rest)
      {
        if items[i] == v { return i; }
      }
      return -1;
    }

    function Timeout(timeout: Option<real>): real {
      if timeout.Some? then timeout.value else 10000.0
    }

    /** The sleeps asked for fit the timeout, and so does their number. */
    ghost predicate Timely(timeout: real, start: real, naps: seq<Nap>, outcome: Outcome)
      reads clock
    {
      && WithinBudget(timeout, start, naps) && |naps| + 1 <= AttemptBound(timeout)
      && (outcome.TimedOut? ==> clock.now - start >= timeout && (clock.Exact() ==> |naps| + 1 == AttemptBound(timeout)))
    }
  }
}
