/** Runs built to reach a given state: what any other clients may do to a call, and that every array is
    the contents of some run. */
module Reach {
  import opened Sequences
  import opened Server
  import opened Protocol
  import opened Linearizability

  const GO := Choice(0, false, false, false)

  lemma OneStep(st: State, a: Action)
    ensures RunFrom(st, [a]) == Do(st, a)
  {
    assert Front([a]) == [];
  }

  lemma TwoSteps(st: State, a: Action, b: Action)
    ensures RunFrom(st, [a, b]) == Do(Do(st, a), b)
  {
    assert Front([a, b]) == [a];
    OneStep(st, a);
  }

  /** What is left of an array after op, a push or an add of a new value. */
  function Inserted(a: seq<Json>, op: Op): seq<Json>
    requires op.Push? || op.Add?
  {
    if op.Push? then [op.v] + a else a + [op.v]
  }

  predicate Inserts(op: Op, a: seq<Json>) {
    op.Push? || (op.Add? && op.v !in a)
  }

  /** The last step of call j, on a document that exists. */
  lemma InsertStep(st: State, j: nat)
    requires Consistent(st.server) && j < |st.calls| && st.calls[j].pc.Sending? && st.server.doc.Present?
    requires Inserts(st.calls[j].op, ContentsOf(st.server.doc))
    ensures var st' := Do(st, Advance(j, GO));
            && st'.server.doc.Present? && st'.server.doc.items == Inserted(st.server.doc.items, st.calls[j].op)
            && st'.server.doc.cas !in st.server.versions && st.server.writes <= st'.server.writes
            && st'.calls[..j] == st.calls[..j] && |st'.calls| == |st.calls|
  {
  }

  /** From st to st' a new call of op ran to its end, alone. */
  ghost predicate RanAlone(st: State, st': State, op: Op)
    requires op.Push? || op.Add?
  {
    && st'.server.doc.Present? && st'.server.doc.items == Inserted(ContentsOf(st.server.doc), op)
    && st'.server.doc.cas !in st.server.versions && st.server.writes <= st'.server.writes
    && st.calls <= st'.calls
  }

  lemma Insert(st: State, op: Op) returns (actions: seq<Action>)
    requires Invariant(st) && Inserts(op, ContentsOf(st.server.doc))
    ensures forall a :: a in actions && a.Invoke? ==> a.op == op
    ensures RanAlone(st, RunFrom(st, actions), op)
  {
    var step := Advance(|st.calls|, GO);
    TwoSteps(st, Invoke(op), step);
    if st.server.doc.Present? {
      InsertStep(Do(st, Invoke(op)), |st.calls|);
      actions := [Invoke(op), step];
      assert RunFrom(st, actions).calls[..|st.calls|] == st.calls;
    } else {
      var s1 := Do(st, Invoke(op));
      actions := [Invoke(op), step] + [step, step];
      TwoSteps(Do(s1, step), step, step);
      RunInParts(st, [Invoke(op), step], [step, step]);
      InsertAfterCreating(st, op);
    }
  }

  lemma InsertAfterCreating(st: State, op: Op)
    requires Consistent(st.server) && st.server.doc.Missing? && Inserts(op, [])
    ensures var step := Advance(|st.calls|, GO);
            RanAlone(st, Do(Do(Do(Do(st, Invoke(op)), step), step), step), op)
  {
    var j := |st.calls|;
    var s1 := Do(st, Invoke(op));
    CreateStep(s1, j);
    var s3 := Do(Do(s1, Advance(j, GO)), Advance(j, GO));
    InsertStep(s3, j);
    assert Do(s3, Advance(j, GO)).calls[..j] == st.calls;
  }

  /** The two steps in which a wrapped operation finds no document and creates it. */
  lemma CreateStep(st: State, j: nat)
    requires Consistent(st.server) && j < |st.calls| && st.server.doc.Missing?
    requires var c := st.calls[j];
             || (c.pc.Sending? && c.pc.creations > 0 && (c.op.Push? || c.op.Add?))
             || (c.pc.Reading? && c.pc.creations > 0 && c.op.Remove?)
    ensures var c := st.calls[j];
            var st' := Do(Do(st, Advance(j, GO)), Advance(j, GO));
            && st'.server.doc.Present? && st'.server.doc.items == [] && Consistent(st'.server)
            && st'.server.writes == st.server.writes + [Write(j, true)]
            && (forall k :: k in st.server.versions ==> k in st'.server.versions)
            && |st'.calls| == |st.calls| && st'.calls[..j] == st.calls[..j]
            && st'.calls[j].op == c.op
            && st'.calls[j].pc == (if c.pc.Sending? then Sending(c.pc.creations - 1) else Reading(c.pc.creations - 1))
  {
    var s1 := Do(st, Advance(j, GO));
    assert s1.server == st.server && s1.calls[j].pc == Creating(st.calls[j].pc.creations - 1);
    ServeFollows(s1.server, j, Pending(s1.calls[j]), GO);
  }

  /* Every array is the contents of some run, so theorems about runs are about every array. */

  lemma InsertNext(actions: seq<Action>, op: Op) returns (longer: seq<Action>)
    requires Inserts(op, ContentsOf(Run(actions).server.doc))
    ensures forall x :: x in longer && x.Invoke? ==> x in actions || x.op == op
    ensures ContentsOf(Run(longer).server.doc) == Inserted(ContentsOf(Run(actions).server.doc), op)
  {
    RunInvariant(actions);
    var more := Insert(Run(actions), op);
    RunInParts(Initial, actions, more);
    longer := actions + more;
  }

  lemma {:induction false} EveryArrayIsReached(a: seq<Json>) returns (actions: seq<Action>)
    ensures forall x :: x in actions && x.Invoke? ==> x.op.Push?
    ensures ContentsOf(Run(actions).server.doc) == a
    decreases |a|
  {
    if a == [] { return []; }
    var rest := EveryArrayIsReached(a[1..]);
    actions := InsertNext(rest, Push(a[0]));
  }

  lemma {:induction false} EveryDistinctArrayIsReached(a: seq<Json>) returns (actions: seq<Action>)
    requires NoDuplicates(a)
    ensures forall x :: x in actions && x.Invoke? ==> x.op.Add?
    ensures ContentsOf(Run(actions).server.doc) == a
    decreases |a|
  {
    if a == [] { return []; }
    assert Front(a) + [Last(a)] == a && Last(a) !in Front(a);
    var rest := EveryDistinctArrayIsReached(Front(a));
    actions := InsertNext(rest, Add(Last(a)));
  }

  /** A read that finds the document runs to its end, alone. */
  lemma ReadAlone(st: State) returns (actions: seq<Action>)
    requires st.server.doc.Present?
    ensures var st' := RunFrom(st, actions);
            && st'.server == st.server
            && st'.log == st.log + [Entry(|st.calls|, GetAll, Listed(st.server.doc.items))]
  {
    actions := [Invoke(GetAll), Advance(|st.calls|, GO)];
    TwoSteps(st, Invoke(GetAll), Advance(|st.calls|, GO));
  }

  /* What may happen to a remove that finds no document. */

  ghost predicate OnlyAdds(actions: seq<Action>) {
    forall a :: a in actions && a.Invoke? ==> a.op.Add?
  }

  /** It creates the document, reads what was added, loses the race to another add, and times out. */
  lemma CreatesAndTimesOut(st: State, i: nat, v: Json) returns (actions: seq<Action>)
    requires Invariant(st) && st.server.doc.Missing? && i < |st.calls|
    requires st.calls[i].op == Remove(v) && st.calls[i].pc.Reading? && st.calls[i].pc.creations > 0
    ensures OnlyAdds(actions)
    ensures var st' := RunFrom(st, actions);
            i < |st'.calls| && st'.calls[i].pc == Done(TimedOut) && Write(i, true) in st'.server.writes
  {
    var step := Advance(i, GO);
    TwoSteps(st, step, step);
    CreateStep(st, i);
    RunKeepsInvariant(st, [step, step]);
    var s1 := RunFrom(st, [step, step]);
    assert s1.server.writes[|st.server.writes|] == Write(i, true);
    var rest := ReadsAndTimesOut(s1, i, v);
    RunInParts(st, [step, step], rest);
    return [step, step] + rest;
  }

  lemma ReadsAndTimesOut(st: State, i: nat, v: Json) returns (actions: seq<Action>)
    requires Invariant(st) && i < |st.calls| && st.calls[i].op == Remove(v) && st.calls[i].pc.Reading?
    requires ContentsOf(st.server.doc) == []
    ensures OnlyAdds(actions)
    ensures var st' := RunFrom(st, actions);
            i < |st'.calls| && st'.calls[i].pc == Done(TimedOut) && st.server.writes <= st'.server.writes
  {
    var add := Insert(st, Add(v));
    RunKeepsInvariant(st, add);
    var lose := LosesARace(RunFrom(st, add), i, v);
    RunInParts(st, add, lose);
    return add + lose;
  }

  lemma LosesARace(st: State, i: nat, v: Json) returns (actions: seq<Action>)
    requires Invariant(st) && st.server.doc.Present? && i < |st.calls|
    requires st.server.doc.items == [v]
    requires st.calls[i].op == Remove(v) && st.calls[i].pc.Reading?
    ensures OnlyAdds(actions)
    ensures var st' := RunFrom(st, actions);
            i < |st'.calls| && st'.calls[i].pc == Done(TimedOut) && st.server.writes <= st'.server.writes
  {
    var step := Advance(i, GO);
    OneStep(st, step);
    RunKeepsInvariant(st, [step]);
    FindsValue(st, i, v);
    var rest := FailsOnce(Do(st, step), i, v);
    RunInParts(st, [step], rest);
    return [step] + rest;
  }

  lemma FindsValue(st: State, i: nat, v: Json)
    requires st.server.doc.Present? && st.server.doc.items == [v]
    requires i < |st.calls| && st.calls[i].op == Remove(v) && st.calls[i].pc.Reading?
    ensures var st' := Do(st, Advance(i, GO));
            && st'.server == st.server && |st'.calls| == |st.calls| && st'.calls[i].op == Remove(v)
            && st'.calls[i].pc == Guarded(v, 0, st.server.doc.cas)
  {
  }

  /** Another add changes the CAS, and the time is up. */
  lemma FailsOnce(st: State, i: nat, v: Json) returns (actions: seq<Action>)
    requires Invariant(st) && st.server.doc.Present? && st.server.doc.items == [v]
    requires i < |st.calls| && st.calls[i].op == Remove(v) && st.calls[i].pc == Guarded(v, 0, st.server.doc.cas)
    ensures OnlyAdds(actions)
    ensures var st' := RunFrom(st, actions);
            i < |st'.calls| && st'.calls[i].pc == Done(TimedOut) && st.server.writes <= st'.server.writes
  {
    var add := Insert(st, Add(if v == Null then Boolean(true) else Null));
    var st' := RunFrom(st, add);
    assert st'.calls[i] == st.calls[i];
    var step, expire := Advance(i, GO), Advance(i, GO.(expired := true));
    TwoSteps(st', step, expire);
    GivesUp(st', i);
    RunInParts(st, add, [step, expire]);
    return add + [step, expire];
  }

  lemma GivesUp(st: State, i: nat)
    requires i < |st.calls| && st.calls[i].op.Remove? && st.calls[i].pc.Guarded? && st.server.doc.Present?
    requires st.calls[i].pc.cas != 0 && st.calls[i].pc.cas != st.server.doc.cas
    ensures var st' := Do(Do(st, Advance(i, GO)), Advance(i, GO.(expired := true)));
            |st'.calls| == |st.calls| && st'.calls[i].pc == Done(TimedOut) && st'.server == st.server
  {
    var s1 := Do(st, Advance(i, GO));
    assert s1.server == st.server && s1.calls[i].pc == Pausing;
  }
}
