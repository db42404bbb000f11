/** wait_until_ready: the same loop, leaving when a diagnostics report shows the desired state. */
module Cluster {
  import opened Sequences
  import opened Timing

  datatype ClusterState = Online | Degraded | Offline

  /** A report's endpoints by service type; true means connected. */
  type Report = seq<(string, seq<bool>)>

  function Endpoints(report: Report): seq<bool> {
    if report == [] then [] else report[0].1 + Endpoints(report[1..])
  }

  function Services(report: Report): set<string> {
    set e | e in report :: e.0
  }

  lemma {:induction false} EndpointsSnoc(report: Report, i: nat)
    requires i < |report|
    ensures Endpoints(report[..i + 1]) == Endpoints(report[..i]) + report[i].1
  {
    if i == 0 {
      assert report[..1][1..] == [];
    } else {
      EndpointsSnoc(report[1..], i - 1);
      assert report[..i + 1][1..] == report[1..][..i] && report[..i][1..] == report[1..][..i - 1];
    }
  }

  function Connected(endpoints: seq<bool>): (n: nat)
    ensures n <= |endpoints|
    decreases |endpoints|
  {
    if endpoints == [] then 0 else Connected(Front(endpoints)) + (if Last(endpoints) then 1 else 0)
  }

  lemma {:induction false} ConnectedExtremes(endpoints: seq<bool>)
    ensures Connected(endpoints) == |endpoints| <==> false !in endpoints
    ensures Connected(endpoints) == 0 <==> true !in endpoints
    decreases |endpoints|
  {
    if endpoints != [] {
      ConnectedExtremes(Front(endpoints));
      assert endpoints == Front(endpoints) + [Last(endpoints)];
    }
  }

  /** Endpoint j of the i-th service of the report is connected, or not. */
  ghost predicate Shows(report: Report, i: nat, j: nat, connected: bool) {
    i < |report| && j < |report[i].1| && report[i].1[j] == connected
  }

  ghost predicate InState(report: Report, state: ClusterState) {
    var up := exists i: nat, j: nat :: Shows(report, i, j, true);
    var down := exists i: nat, j: nat :: Shows(report, i, j, false);
    match state
    case Online => !down
    case Offline => down && !up
    case Degraded => up && down
  }

  lemma {:induction false} EndpointsShown(report: Report, connected: bool)
    ensures connected in Endpoints(report) <==> exists i: nat, j: nat :: Shows(report, i, j, connected)
  {
    if report != [] {
      EndpointsShown(report[1..], connected);
      if i: nat, j: nat :| Shows(report, i, j, connected) {
        if i > 0 { assert Shows(report[1..], i - 1, j, connected); }
      }
      if i: nat, j: nat :| Shows(report[1..], i, j, connected) {
        assert Shows(report, i + 1, j, connected);
      }
      if connected in report[0].1 {
        var j: nat :| j < |report[0].1| && report[0].1[j] == connected;
        assert Shows(report, 0, j, connected);
      }
    }
  }

  lemma StateIsUnique(report: Report, s: ClusterState, t: ClusterState)
    requires InState(report, s) && InState(report, t)
    ensures s == t
  {
  }

  /** DiagnosticsResult.state: online when every endpoint is connected (even if there is none),
      degraded when only some are, offline when none is. */
  method State(report: Report) returns (state: ClusterState)
    ensures InState(report, state)
  {
    var found, connected := 0, 0;
    for i := 0 to |report|
      invariant found == |Endpoints(report[..i])| && connected == Connected(Endpoints(report[..i]))
    {
      EndpointsSnoc(report, i);
      var endpoints := report[i].1;
      ghost var before := Endpoints(report[..i]);
      assert before + endpoints[..0] == before;
      for j := 0 to |endpoints|
        invariant found == |before + endpoints[..j]| && connected == Connected(before + endpoints[..j])
      {
        assert before + endpoints[..j + 1] == before + endpoints[..j] + [endpoints[j]];
        assert Front(before + endpoints[..j + 1]) == before + endpoints[..j];
        found := found + 1;
        if endpoints[j] { connected := connected + 1; }
      }
      assert endpoints[..|endpoints|] == endpoints;
    }
    assert report[..|report|] == report;
    ConnectedExtremes(Endpoints(report));
    EndpointsShown(report, true);
    EndpointsShown(report, false);
    if found == connected { return Online; }
    if connected > 0 { return Degraded; }
    return Offline;
  }

  /** A cluster whose k-th diagnostics report is arbitrary. */
  class Cluster {
    const reports: nat -> Report
    const clock: Clock
    var asked: nat
    var pings: nat

    constructor (reports: nat -> Report, clock: Clock)
      ensures this.reports == reports && this.clock == clock
    {
      this.reports := reports;
      this.clock := clock;
      asked, pings := 0, 0;
    }

    method Diagnostics() returns (report: Report)
      modifies this
      ensures report == reports(old(asked)) && asked == old(asked) + 1 && pings == old(pings)
    {
      report := reports(asked);
      asked := asked + 1;
    }

    /** One round: ping, and ask again, iff the first report misses a service. */
    method Observe(services: set<string>) returns (state: ClusterState)
      modifies this
      ensures var missing := exists s :: s in services && forall e :: e in reports(old(asked)) ==> e.0 != s;
              asked == old(asked) + (if missing then 2 else 1) && pings == old(pings) + (if missing then 1 else 0)
      ensures InState(reports(asked - 1), state)
    {
      var report := Diagnostics();
      if !(services <= Services(report)) {
        pings := pings + 1;
        report := Diagnostics();
      }
      state := State(report);
    }

    /** judged holds the number of the report each round decided on.  Ready means that the last of them,
        and none before, shows the desired state; a timeout, that none does and the deadline has passed. */
    method WaitUntilReady(timeout: real, services: set<string>, desired: ClusterState)
      returns (timedOut: bool, ghost judged: seq<nat>, ghost start: real, ghost naps: seq<Nap>)
      modifies this, clock
      ensures clock.naps == old(clock.naps) + naps && start >= old(clock.now)
      ensures |judged| == |naps| + 1 <= AttemptBound(timeout) && WithinBudget(timeout, start, naps)
      ensures timedOut ==> clock.now - start >= timeout && (clock.Exact() ==> |judged| == AttemptBound(timeout))
      ensures forall k :: 0 <= k < |judged| ==>
                old(asked) <= judged[k] < asked
                && (InState(reports(judged[k]), desired) <==> !timedOut && k == |judged| - 1)
    {
      judged, naps := [], [];
      var interval := 50.0;
      var begun := clock.PerfCounter();
      start := begun;
      while true
        invariant clock.naps == old(clock.naps) + naps && start == begun >= old(clock.now)
        invariant |judged| == |naps| < AttemptBound(timeout)
        invariant Paced(timeout, start, clock.now, interval, naps, clock.Exact())
        invariant old(asked) <= asked
        invariant forall k :: 0 <= k < |judged| ==>
                    old(asked) <= judged[k] < asked && !InState(reports(judged[k]), desired)
        decreases AttemptBound(timeout) - |judged|
      {
        var state := Observe(services);
        judged := judged + [asked - 1];
        if state == desired { return false, judged, start, naps; }
        if InState(reports(asked - 1), desired) { StateIsUnique(reports(asked - 1), state, desired); }
        var expired;
        ghost var slept;
        interval, expired, slept := BackOff(clock, timeout, begun, interval, naps);
        if expired { return true, judged, start, naps; }
        naps := naps + slept;
      }
    }
  }
}
