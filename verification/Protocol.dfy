/** Any number of calls of the data-structure operations, interleaved arbitrarily over one document.

    A call is a small state machine: Pending names the request its program counter is about to send
    and Receive what it does with the reply.  Starting a call, and letting one call exchange one
    request, are the only actions; a run is any sequence of them. */
module Protocol {
  import opened Sequences
  import opened Server

  datatype Op =
    | Push(v: Json)
    | Pop
    | Add(v: Json)
    | Remove(v: Json)
    | Contains(v: Json)
    | GetAll
    | Clear

  datatype Outcome =
    | Returned
    | Popped(v: Json)
    | Flag(b: bool)
    | Listed(items: seq<Json>)
    | QueueEmpty
    | NoDocument
    | NoPath
    | TimedOut

  /** creations counts the empty-document inserts the datastructure_op wrappers may still make. */
  datatype Pc =
    | Sending(creations: nat)
    | Creating(creations: nat)
    | Reading(creations: nat)
    | Guarded(value: Json, path: int, cas: Cas)
    | Pausing
    | Dropping
    | Done(outcome: Outcome)

  /** begun, window, seen, finish and failures are history: how many writes there were when the call
      began and at its last read, what that read saw, the log length once the call was done, and how
      many CAS mismatches it met. */
  datatype Call = Call(op: Op, pc: Pc, begun: nat, window: nat, seen: seq<Json>, finish: nat, failures: nat)

  /** A call's atomic effect, in the order the effects happened. */
  datatype Entry = Entry(call: nat, op: Op, outcome: Outcome)

  datatype State = State(server: Server, calls: seq<Call>, log: seq<Entry>)

  datatype Action = Invoke(op: Op) | Advance(call: nat, choice: Choice)

  const Initial := State(Fresh, [], [])

  function FirstPc(op: Op): Pc {
    match op
    case Push(_) => Sending(1)
    case Add(_) => Sending(1)
    case Pop => Reading(0)
    case Remove(_) => Reading(1)
    case GetAll => Reading(1)
    case Contains(_) => Reading(3)  // a wrapped call of a wrapped _get
    case Clear => Dropping
  }

  function Pending(c: Call): Request {
    match c.pc
    case Sending(_) =>
      MutateIn(if c.op.Push? then ArrayPrepend(c.op.v) else if c.op.Add? then ArrayAddUnique(c.op.v)
               else RemovePath(-1), 0)
    case Creating(_) => InsertEmpty
    case Reading(_) => if c.op.Pop? then LookupLast else GetDocument
    case Guarded(_, path, cas) => MutateIn(RemovePath(path), cas)
    case Pausing => ReadClock
    case Dropping => RemoveDocument
    case Done(_) => NoRequest
  }

  function Receive(c: Call, reply: Reply): Pc {
    match c.pc
    case Sending(creations) => AfterSending(c, creations, reply)
    case Creating(creations) => if c.op.Push? || c.op.Add? then Sending(creations) else Reading(creations)
    case Reading(creations) => AfterReading(c, creations, reply)
    case Guarded(value, _, _) => AfterGuarded(c, value, reply)
    case Pausing => if reply.Expired? && reply.expired then Done(TimedOut) else FirstPc(c.op)
    case Dropping => Done(Returned)
    case Done(_) => c.pc
  }

  function AfterSending(c: Call, creations: nat, reply: Reply): Pc {
    if reply.Ok? then Done(if c.op.Push? then Returned else Flag(true))
    else if reply.PathExists? then Done(Flag(false))
    else if creations > 0 then Creating(creations - 1)
    else Done(NoDocument)
  }

  function AfterReading(c: Call, creations: nat, reply: Reply): Pc {
    match reply
    case Found(value, cas) => Guarded(value, -1, cas)
    case Contents(items, cas) => AfterGet(c.op, items, cas)
    case PathNotFound => Done(QueueEmpty)
    case _ => if creations > 0 then Creating(creations - 1) else Done(NoDocument)
  }

  function AfterGuarded(c: Call, value: Json, reply: Reply): Pc {
    if reply.Ok? then Done(if c.op.Pop? then Popped(value) else Returned)
    else if reply.CasMismatch? then Pausing
    else if reply.PathNotFound? then Done(if c.op.Pop? then QueueEmpty else NoPath)
    else Done(NoDocument)
  }

  function AfterGet(op: Op, items: seq<Json>, cas: Cas): Pc {
    match op
    case Remove(v) =>
      var i := IndexOf(items, v);
      if i >= 0 then Guarded(v, i, cas) else Done(Returned)
    case Contains(v) => Done(Flag(v in items))
    case _ => Done(Listed(items))
  }

  /** The calls whose outcome reports an effect or an observation; the others promise to have had none. */
  predicate Logged(op: Op, outcome: Outcome) {
    !outcome.TimedOut? && !outcome.NoPath? && (outcome.NoDocument? ==> op.Pop?)
  }

  function AfterExchange(c: Call, pc: Pc, server: Server, reply: Reply, logged: nat): Call {
    c.(pc := pc,
       finish := if pc.Done? then logged else c.finish,
       window := if c.pc.Reading? then |server.writes| else c.window,
       seen := if c.pc.Reading? then ContentsOf(server.doc) else c.seen,
       failures := c.failures + (if c.pc.Guarded? && reply.CasMismatch? then 1 else 0))
  }

  function Exchange(st: State, i: nat, choice: Choice): State
    requires i < |st.calls| && !st.calls[i].pc.Done?
  {
    var c := st.calls[i];
    var (server, reply) := Serve(st.server, i, Pending(c), choice);
    var pc := Receive(c, reply);
    var log := if pc.Done? && Logged(c.op, pc.outcome) then st.log + [Entry(i, c.op, pc.outcome)] else st.log;
    State(server, st.calls[i := AfterExchange(c, pc, server, reply, |log|)], log)
  }

  function Begin(st: State, op: Op): Call {
    Call(op, FirstPc(op), |st.server.writes|, |st.server.writes|, [], 0, 0)
  }

  /** An action that names no unfinished call changes nothing. */
  function Do(st: State, a: Action): State {
    match a
    case Invoke(op) => st.(calls := st.calls + [Begin(st, op)])
    case Advance(i, choice) =>
      if i < |st.calls| && !st.calls[i].pc.Done? then Exchange(st, i, choice) else st
  }

  function RunFrom(st: State, actions: seq<Action>): State
    decreases |actions|
  {
    if actions == [] then st else Do(RunFrom(st, Front(actions)), Last(actions))
  }

  function Run(actions: seq<Action>): State {
    RunFrom(Initial, actions)
  }

  lemma RunSnoc(actions: seq<Action>, a: Action)
    ensures Run(actions + [a]) == Do(Run(actions), a)
  {
    assert Front(actions + [a]) == actions;
  }

  /* The sequential object that the calls must appear to act on one at a time. */

  function Sequential(a: seq<Json>, op: Op, outcome: Outcome): Option<seq<Json>> {
    match op
    case Push(v) => if outcome.Returned? then Some([v] + a) else None
    case Pop =>
      if outcome.Popped? && a != [] && outcome.v == Last(a) then Some(Front(a))
      else if (outcome.QueueEmpty? || outcome.NoDocument?) && a == [] then Some(a)
      else None
    case Add(v) => if outcome == Flag(v !in a) then Some(if v in a then a else a + [v]) else None
    case Remove(v) => if outcome.Returned? then Some(Without(a, v)) else None
    case Contains(v) => if outcome == Flag(v in a) then Some(a) else None
    case GetAll => if outcome == Listed(a) then Some(a) else None
    case Clear => if outcome.Returned? then Some([]) else None
  }

  function Replay(log: seq<Entry>): Option<seq<Json>>
    decreases |log|
  {
    if log == [] then Some([])
    else
      match Replay(Front(log))
      case None => None
      case Some(a) => Sequential(a, Last(log).op, Last(log).outcome)
  }

  /** The writes from position on made by other calls than i. */
  function OthersWrites(writes: seq<Write>, from: nat, i: nat): nat
    decreases |writes|
  {
    if |writes| <= from then 0
    else OthersWrites(Front(writes), from, i) + (if Last(writes).call == i then 0 else 1)
  }

  /* What every run keeps. */

  ghost predicate ReadHolds(c: Call)
    requires c.pc.Guarded?
  {
    match c.op
    case Pop => c.pc.path == -1 && c.pc.value == (if c.seen == [] then Null else Last(c.seen))
    case Remove(v) => c.pc.value == v && c.pc.path == IndexOf(c.seen, v) && v in c.seen
    case _ => false
  }

  ghost predicate PcFits(c: Call) {
    match c.pc
    case Sending(_) => c.op.Push? || c.op.Add?
    case Creating(_) => !c.op.Pop? && !c.op.Clear?
    case Reading(creations) => !c.op.Push? && !c.op.Add? && !c.op.Clear? && (c.op.Pop? ==> creations == 0)
    case Guarded(_, _, _) => ReadHolds(c)
    case Pausing => c.op.Pop? || c.op.Remove?
    case Dropping => c.op.Clear?
    case Done(outcome) => !outcome.NoPath? && (outcome.TimedOut? ==> c.op.Pop? || c.op.Remove?)
  }

  ghost predicate WindowHolds(s: Server, i: nat, c: Call) {
    c.pc.Guarded? ==>
      && c.begun <= c.window <= |s.writes|
      && c.pc.cas in s.versions && s.versions[c.pc.cas] == c.seen
      && (c.window == |s.writes| ==> s.doc == Present(c.pc.cas, c.seen))
      && (forall k :: c.window <= k < |s.writes| ==> s.writes[k].call != i)
  }

  /** What a call has written so far: nothing but empty documents until its effect. */
  ghost predicate WritesHold(s: Server, i: nat, c: Call) {
    forall k :: 0 <= k < |s.writes| && s.writes[k].call == i ==>
      && (c.op.Pop? ==> c.pc.Done? && c.pc.outcome.Popped?)
      && (s.writes[k].created || (c.pc.Done? && Logged(c.op, c.pc.outcome)))
  }

  ghost predicate FailuresHold(s: Server, i: nat, c: Call) {
    && c.begun <= |s.writes|
    && c.failures <= OthersWrites(s.writes, c.begun, i)
    && (c.pc.Guarded? ==> c.begun <= c.window <= |s.writes|
                          && c.failures <= OthersWrites(s.writes[..c.window], c.begun, i))
  }

  /** A call that pauses before a retry, or gave up, met a CAS mismatch, and since its last read only
      others wrote, and did. */
  ghost predicate PauseHolds(s: Server, i: nat, c: Call) {
    c.pc.Pausing? || c.pc == Done(TimedOut) ==>
      && c.failures > 0 && c.begun <= c.window < |s.writes|
      && (forall k :: c.window <= k < |s.writes| ==> s.writes[k].call != i)
  }

  ghost predicate LogHolds(st: State, i: nat, c: Call) {
    c.pc.Done? && Logged(c.op, c.pc.outcome) ==>
      0 < c.finish <= |st.log| && st.log[c.finish - 1] == Entry(i, c.op, c.pc.outcome)
  }

  ghost predicate CallHolds(st: State, i: nat, c: Call) {
    && PcFits(c)
    && WindowHolds(st.server, i, c)
    && WritesHold(st.server, i, c)
    && FailuresHold(st.server, i, c)
    && PauseHolds(st.server, i, c)
    && LogHolds(st, i, c)
  }

  ghost predicate EntryHolds(st: State, k: nat)
    requires k < |st.log|
  {
    var i := st.log[k].call;
    i < |st.calls| && st.calls[i].pc.Done? && Logged(st.calls[i].op, st.calls[i].pc.outcome)
    && st.calls[i].finish == k + 1
  }

  ghost predicate WritersKnown(st: State) {
    forall k :: 0 <= k < |st.server.writes| ==> st.server.writes[k].call < |st.calls|
  }

  ghost predicate Invariant(st: State) {
    && Consistent(st.server) && WritersKnown(st)
    && (forall i :: 0 <= i < |st.calls| ==> CallHolds(st, i, st.calls[i]))
    && (forall k :: 0 <= k < |st.log| ==> EntryHolds(st, k))
    && Replay(st.log) == Some(ContentsOf(st.server.doc))
  }

  /* Counting writes. */

  lemma {:induction false} OthersWritesGrow(writes: seq<Write>, more: seq<Write>, from: nat, i: nat)
    ensures OthersWrites(writes, from, i) <= OthersWrites(writes + more, from, i)
    ensures from <= |writes| && (exists k :: 0 <= k < |more| && more[k].call != i) ==>
              OthersWrites(writes, from, i) < OthersWrites(writes + more, from, i)
    decreases |more|
  {
    if more == [] {
      assert writes + more == writes;
    } else {
      assert Front(writes + more) == writes + Front(more);
      OthersWritesGrow(writes, Front(more), from, i);
      if |writes + more| <= from {
      } else if exists k :: 0 <= k < |more| && more[k].call != i {
        var k :| 0 <= k < |more| && more[k].call != i;
        if k < |Front(more)| {
          assert Front(more)[k].call != i;
        }
      }
    }
  }

  /* One exchange, seen by the call that makes it. */

  /** The snapshot law: a call whose CAS is still the document's holds what the document holds. */
  ghost predicate SnapshotHolds(s: Server, c: Call) {
    c.pc.Guarded? ==> c.pc.cas != 0 && (s.doc.Present? && s.doc.cas == c.pc.cas ==> s.doc.items == c.seen)
  }

  ghost predicate TakesEffect(c: Call, before: Document, pc: Pc, after: Document) {
    if pc.Done? && Logged(c.op, pc.outcome)
    then Sequential(ContentsOf(before), c.op, pc.outcome) == Some(ContentsOf(after))
    else ContentsOf(after) == ContentsOf(before)
  }

  lemma GuardedPopTakesEffect(s: Server, i: nat, c: Call, choice: Choice)
    requires c.op.Pop? && c.pc.Guarded? && PcFits(c) && SnapshotHolds(s, c)
    ensures var (s', reply) := Serve(s, i, Pending(c), choice); TakesEffect(c, s.doc, Receive(c, reply), s'.doc)
  {
    assert Pending(c) == MutateIn(RemovePath(-1), c.pc.cas);
    if s.doc.Present? && s.doc.cas == c.pc.cas {
      var items := s.doc.items;
      if items == [] {
        assert ApplySpec(items, RemovePath(-1)) == Refused(PathNotFound);
      } else {
        assert RemoveAt(items, |items| - 1) == Front(items);
        assert ApplySpec(items, RemovePath(-1)) == Changed(Front(items)) && c.pc.value == Last(items);
      }
    }
  }

  lemma GuardedRemoveTakesEffect(s: Server, i: nat, c: Call, choice: Choice)
    requires c.op.Remove? && c.pc.Guarded? && PcFits(c) && SnapshotHolds(s, c)
    ensures var (s', reply) := Serve(s, i, Pending(c), choice); TakesEffect(c, s.doc, Receive(c, reply), s'.doc)
  {
    if s.doc.Present? && s.doc.cas == c.pc.cas {
      assert Without(s.doc.items, c.op.v) == RemoveAt(s.doc.items, c.pc.path);
    }
  }

  lemma UnguardedTakesEffect(s: Server, i: nat, c: Call, choice: Choice)
    requires !c.pc.Guarded? && !c.pc.Done? && PcFits(c)
    ensures var (s', reply) := Serve(s, i, Pending(c), choice); TakesEffect(c, s.doc, Receive(c, reply), s'.doc)
  {
    if c.pc.Reading? && c.op.Remove? && s.doc.Present? {
      assert c.op.v !in s.doc.items ==> Without(s.doc.items, c.op.v) == s.doc.items;
    }
  }

  /** A step is invisible in log and contents, or logs exactly the one operation that it performs. */
  ghost predicate OneEffect(st: State, st': State, i: nat) {
    || (st'.log == st.log && ContentsOf(st'.server.doc) == ContentsOf(st.server.doc))
    || (i < |st'.calls| && st'.calls[i].pc.Done?
        && st'.log == st.log + [Entry(i, st'.calls[i].op, st'.calls[i].pc.outcome)]
        && Sequential(ContentsOf(st.server.doc), st'.calls[i].op, st'.calls[i].pc.outcome)
           == Some(ContentsOf(st'.server.doc)))
  }

  lemma ExchangeTakesEffect(st: State, i: nat, choice: Choice)
    requires Invariant(st) && i < |st.calls| && !st.calls[i].pc.Done?
    ensures var st' := Exchange(st, i, choice);
            OneEffect(st, st', i) && Replay(st'.log) == Some(ContentsOf(st'.server.doc))
  {
    var c := st.calls[i];
    assert CallHolds(st, i, c);
    var (s', reply) := Serve(st.server, i, Pending(c), choice);
    var pc := Receive(c, reply);
    if !c.pc.Guarded? { UnguardedTakesEffect(st.server, i, c, choice); }
    else if c.op.Pop? { GuardedPopTakesEffect(st.server, i, c, choice); }
    else { GuardedRemoveTakesEffect(st.server, i, c, choice); }
    var log := st.log + [Entry(i, c.op, if pc.Done? then pc.outcome else Returned)];
    assert Front(log) == st.log;
  }

  lemma ExchangeKeepsPc(st: State, i: nat, choice: Choice)
    requires i < |st.calls| && !st.calls[i].pc.Done? && CallHolds(st, i, st.calls[i]) && Consistent(st.server)
    ensures var st' := Exchange(st, i, choice);
            PcFits(st'.calls[i]) && WindowHolds(st'.server, i, st'.calls[i])
  {
  }

  lemma ExchangeKeepsWrites(st: State, i: nat, choice: Choice)
    requires i < |st.calls| && !st.calls[i].pc.Done?
    requires PcFits(st.calls[i]) && WritesHold(st.server, i, st.calls[i])
    ensures var st' := Exchange(st, i, choice);
            WritesHold(st'.server, i, st'.calls[i]) && LogHolds(st', i, st'.calls[i])
  {
  }

  lemma ExchangeKeepsPause(st: State, i: nat, choice: Choice)
    requires i < |st.calls| && !st.calls[i].pc.Done?
    requires var c := st.calls[i];
             PcFits(c) && WindowHolds(st.server, i, c) && FailuresHold(st.server, i, c) && PauseHolds(st.server, i, c)
    ensures var st' := Exchange(st, i, choice); PauseHolds(st'.server, i, st'.calls[i])
  {
  }

  lemma ExchangeKeepsFailures(st: State, i: nat, choice: Choice)
    requires Invariant(st) && i < |st.calls| && !st.calls[i].pc.Done?
    ensures var st' := Exchange(st, i, choice); FailuresHold(st'.server, i, st'.calls[i])
  {
    var c := st.calls[i];
    assert CallHolds(st, i, c);
    var (s', reply) := Serve(st.server, i, Pending(c), choice);
    var c' := Exchange(st, i, choice).calls[i];
    if c.pc.Guarded? && reply.CasMismatch? {
      MismatchHasWitness(st, i, choice);
      MismatchIsCounted(st.server.writes, c.window, c.begun, i);
    } else {
      ServeFollows(st.server, i, Pending(c), choice);
      GrowthKeepsFailures(st.server, s', i, c, c');
    }
  }

  /** More writes only loosen the bound. */
  lemma GrowthKeepsFailures(s: Server, s': Server, i: nat, c: Call, c': Call)
    requires FailuresHold(s, i, c) && s.writes <= s'.writes
    requires c'.begun == c.begun && c'.failures == c.failures
    requires c'.pc.Guarded? ==> c'.window == |s'.writes|
    ensures FailuresHold(s', i, c')
  {
    OthersWritesGrow(s.writes, s'.writes[|s.writes|..], c.begun, i);
    assert s'.writes == s.writes + s'.writes[|s.writes|..];
    assert s'.writes[..|s'.writes|] == s'.writes;
  }

  lemma MismatchIsCounted(writes: seq<Write>, window: nat, begun: nat, i: nat)
    requires begun <= window <= |writes|
    requires exists k :: 0 <= k < |writes[window..]| && writes[window..][k].call != i
    ensures OthersWrites(writes[..window], begun, i) < OthersWrites(writes, begun, i)
  {
    assert writes[..window] + writes[window..] == writes;
    OthersWritesGrow(writes[..window], writes[window..], begun, i);
  }

  lemma ExchangeKeepsCaller(st: State, i: nat, choice: Choice)
    requires Invariant(st) && i < |st.calls| && !st.calls[i].pc.Done?
    ensures var st' := Exchange(st, i, choice); CallHolds(st', i, st'.calls[i])
  {
    assert CallHolds(st, i, st.calls[i]);
    ExchangeKeepsPc(st, i, choice);
    ExchangeKeepsWrites(st, i, choice);
    ExchangeKeepsFailures(st, i, choice);
    ExchangeKeepsPause(st, i, choice);
  }

  /** A CAS mismatch means that another call's mutation fell between this attempt's read and write. */
  lemma MismatchHasWitness(st: State, i: nat, choice: Choice)
    requires Invariant(st) && i < |st.calls|
    requires st.calls[i].pc.Guarded? && Serve(st.server, i, Pending(st.calls[i]), choice).1.CasMismatch?
    ensures st.calls[i].window < |st.server.writes|
    ensures forall k :: st.calls[i].window <= k < |st.server.writes| ==> st.server.writes[k].call != i
    ensures exists k :: 0 <= k < |st.server.writes[st.calls[i].window..]|
                        && st.server.writes[st.calls[i].window..][k].call != i
  {
    var c := st.calls[i];
    assert CallHolds(st, i, c);
    assert st.server.writes[c.window..][0].call != i;
  }

  /** What another call's write leaves of call j's window. */
  lemma FollowKeepsWindow(s: Server, s': Server, i: nat, j: nat, c: Call)
    requires Follows(s, s', i) && Consistent(s) && j != i
    requires WindowHolds(s, j, c) && WritesHold(s, j, c) && PauseHolds(s, j, c)
    ensures WindowHolds(s', j, c) && WritesHold(s', j, c) && PauseHolds(s', j, c)
  {
  }

  lemma FollowKeepsFailures(s: Server, s': Server, i: nat, j: nat, c: Call)
    requires Follows(s, s', i) && FailuresHold(s, j, c)
    ensures FailuresHold(s', j, c)
  {
    OthersWritesGrow(s.writes, s'.writes[|s.writes|..], c.begun, j);
    assert s'.writes == s.writes + s'.writes[|s.writes|..];
    if c.pc.Guarded? { assert s'.writes[..c.window] == s.writes[..c.window]; }
  }

  lemma ExchangeKeepsOthers(st: State, i: nat, choice: Choice, j: nat)
    requires i < |st.calls| && !st.calls[i].pc.Done? && j < |st.calls| && j != i
    requires Consistent(st.server) && CallHolds(st, j, st.calls[j])
    ensures var st' := Exchange(st, i, choice); CallHolds(st', j, st'.calls[j])
  {
    var c := st.calls[j];
    ServeFollows(st.server, i, Pending(st.calls[i]), choice);
    var st' := Exchange(st, i, choice);
    FollowKeepsWindow(st.server, st'.server, i, j, c);
    FollowKeepsFailures(st.server, st'.server, i, j, c);
    assert st.log <= st'.log && st'.calls[j] == c;
  }

  lemma ExchangeKeepsLog(st: State, i: nat, choice: Choice, k: nat)
    requires Invariant(st) && i < |st.calls| && !st.calls[i].pc.Done?
    requires k < |Exchange(st, i, choice).log|
    ensures EntryHolds(Exchange(st, i, choice), k)
  {
    if k < |st.log| {
      assert EntryHolds(st, k);
    }
  }

  lemma BeginKeepsInvariant(st: State, op: Op)
    requires Invariant(st)
    ensures Invariant(Do(st, Invoke(op)))
  {
    var st' := Do(st, Invoke(op));
    forall k | 0 <= k < |st'.log| ensures EntryHolds(st', k) {
      assert EntryHolds(st, k);
    }
    forall j | 0 <= j < |st'.calls| ensures CallHolds(st', j, st'.calls[j]) {
      if j < |st.calls| { assert CallHolds(st, j, st.calls[j]); }
    }
  }

  lemma ExchangeKeepsCalls(st: State, i: nat, choice: Choice)
    requires Invariant(st) && i < |st.calls| && !st.calls[i].pc.Done?
    ensures var st' := Exchange(st, i, choice);
            forall j :: 0 <= j < |st'.calls| ==> CallHolds(st', j, st'.calls[j])
  {
    var st' := Exchange(st, i, choice);
    forall j | 0 <= j < |st'.calls| ensures CallHolds(st', j, st'.calls[j]) {
      assert CallHolds(st, j, st.calls[j]);
      if j == i { ExchangeKeepsCaller(st, i, choice); } else { ExchangeKeepsOthers(st, i, choice, j); }
    }
  }

  lemma ExchangeKeepsEntries(st: State, i: nat, choice: Choice)
    requires Invariant(st) && i < |st.calls| && !st.calls[i].pc.Done?
    ensures var st' := Exchange(st, i, choice); forall k :: 0 <= k < |st'.log| ==> EntryHolds(st', k)
  {
    var st' := Exchange(st, i, choice);
    forall k | 0 <= k < |st'.log| ensures EntryHolds(st', k) {
      ExchangeKeepsLog(st, i, choice, k);
    }
  }

  lemma ExchangeKeepsServer(st: State, i: nat, choice: Choice)
    requires i < |st.calls| && !st.calls[i].pc.Done? && Consistent(st.server) && WritersKnown(st)
    ensures Consistent(Exchange(st, i, choice).server) && WritersKnown(Exchange(st, i, choice))
  {
    ServeFollows(st.server, i, Pending(st.calls[i]), choice);
  }

  lemma ExchangeKeepsInvariant(st: State, i: nat, choice: Choice)
    requires Invariant(st) && i < |st.calls| && !st.calls[i].pc.Done?
    ensures Invariant(Exchange(st, i, choice))
  {
    ExchangeKeepsServer(st, i, choice);
    ExchangeTakesEffect(st, i, choice);
    ExchangeKeepsCalls(st, i, choice);
    ExchangeKeepsEntries(st, i, choice);
  }

  lemma DoKeepsInvariant(st: State, a: Action)
    requires Invariant(st)
    ensures Invariant(Do(st, a))
  {
    match a {
      case Invoke(op) => BeginKeepsInvariant(st, op);
      case Advance(i, choice) =>
        if i < |st.calls| && !st.calls[i].pc.Done? { ExchangeKeepsInvariant(st, i, choice); }
    }
  }

  lemma {:induction false} RunKeepsInvariant(st: State, actions: seq<Action>)
    requires Invariant(st)
    ensures Invariant(RunFrom(st, actions))
    decreases |actions|
  {
    if actions != [] {
      RunKeepsInvariant(st, Front(actions));
      DoKeepsInvariant(RunFrom(st, Front(actions)), Last(actions));
    }
  }

  lemma RunInvariant(actions: seq<Action>)
    ensures Invariant(Run(actions))
  {
    RunKeepsInvariant(Initial, actions);
  }

  /** A remove never asks for an index its document does not have. */
  lemma NoPathIsNeverMissed(actions: seq<Action>, i: nat)
    requires i < |Run(actions).calls|
    ensures Run(actions).calls[i].pc != Done(NoPath)
  {
    RunInvariant(actions);
    assert CallHolds(Run(actions), i, Run(actions).calls[i]);
  }
}
