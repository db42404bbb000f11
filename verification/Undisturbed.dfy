/** What each operation does when nobody writes in between: however other calls interleave their reads, and
    whatever the environment chooses, three requests are enough, and the answer and the new contents are
    those that the operation promises. */
module Undisturbed {
  import opened Sequences
  import opened Server
  import opened Protocol
  import opened Linearizability

  /** Others act, and then the call exchanges one request. */
  datatype Round = Round(others: seq<Action>, choice: Choice)

  function Actions(i: nat, rounds: seq<Round>): seq<Action>
    decreases |rounds|
  {
    if rounds == [] then []
    else Actions(i, Front(rounds)) + Last(rounds).others + [Advance(i, Last(rounds).choice)]
  }

  function Play(st: State, i: nat, rounds: seq<Round>): State {
    RunFrom(st, Actions(i, rounds))
  }

  lemma PlaySnoc(st: State, i: nat, rounds: seq<Round>)
    requires rounds != []
    ensures Play(st, i, rounds) ==
            Do(RunFrom(Play(st, i, Front(rounds)), Last(rounds).others), Advance(i, Last(rounds).choice))
  {
    var before := Actions(i, Front(rounds));
    var step := Advance(i, Last(rounds).choice);
    RunInParts(st, before, Last(rounds).others);
    assert Front(before + Last(rounds).others + [step]) == before + Last(rounds).others;
  }

  /** In no round do the others write, or act for the call. */
  ghost predicate Quiet(st: State, i: nat, rounds: seq<Round>)
    decreases |rounds|
  {
    rounds != [] ==>
      && Quiet(st, i, Front(rounds)) && NotBy(Last(rounds).others, i)
      && var now := Play(st, i, Front(rounds));
         RunFrom(now, Last(rounds).others).server.writes == now.server.writes
  }

  function Bare(op: Op, pc: Pc): Call {
    Call(op, pc, 0, 0, [], 0, 0)
  }

  /** The document and the program counter after the call's requests alone. */
  function Step(s: Server, op: Op, pc: Pc, i: nat, choice: Choice): (Server, Pc) {
    if pc.Done? then (s, pc)
    else var (s', reply) := Serve(s, i, Pending(Bare(op, pc)), choice); (s', Receive(Bare(op, pc), reply))
  }

  function Solo(s: Server, op: Op, pc: Pc, i: nat, rounds: seq<Round>): (Server, Pc)
    decreases |rounds|
  {
    if rounds == [] then (s, pc)
    else var (s', pc') := Solo(s, op, pc, i, Front(rounds)); Step(s', op, pc', i, Last(rounds).choice)
  }

  lemma {:induction false} QuietOthers(st: State, others: seq<Action>, i: nat)
    requires Invariant(st) && i < |st.calls| && NotBy(others, i)
    requires RunFrom(st, others).server.writes == st.server.writes
    ensures RunFrom(st, others).server == st.server
    decreases |others|
  {
    if others != [] {
      var mid := RunFrom(st, Front(others));
      RunKeepsInvariant(st, Front(others));
      RunExtends(st, Front(others));
      DoExtends(mid, Last(others));
      assert NotBy(Front(others), i);
      assert mid.server.writes == st.server.writes;
      QuietOthers(st, Front(others), i);
      if Last(others).Advance? && Last(others).call < |mid.calls| && !mid.calls[Last(others).call].pc.Done? {
        var j := Last(others).call;
        ServeFollows(mid.server, j, Pending(mid.calls[j]), Last(others).choice);
      }
    }
  }

  lemma {:induction false} PlaysSolo(st: State, i: nat, rounds: seq<Round>)
    requires Invariant(st) && i < |st.calls| && Quiet(st, i, rounds)
    ensures var st' := Play(st, i, rounds);
            && Invariant(st') && i < |st'.calls| && st'.calls[i].op == st.calls[i].op
            && (st'.server, st'.calls[i].pc) == Solo(st.server, st.calls[i].op, st.calls[i].pc, i, rounds)
    decreases |rounds|
  {
    if rounds != [] {
      PlaysSolo(st, i, Front(rounds));
      PlaySnoc(st, i, rounds);
      var mid := Play(st, i, Front(rounds));
      QuietOthers(mid, Last(rounds).others, i);
      OthersLeaveCall(mid, Last(rounds).others, i);
      RunKeepsInvariant(mid, Last(rounds).others);
      var now := RunFrom(mid, Last(rounds).others);
      DoKeepsInvariant(now, Advance(i, Last(rounds).choice));
      StepsAlone(now, i, Last(rounds).choice);
    }
  }

  lemma StepsAlone(st: State, i: nat, choice: Choice)
    requires i < |st.calls|
    ensures var st' := Do(st, Advance(i, choice)); var c := st.calls[i];
            && |st'.calls| == |st.calls| && st'.calls[i].op == c.op
            && (st'.server, st'.calls[i].pc) == Step(st.server, c.op, c.pc, i, choice)
  {
  }

  lemma TwoRounds(s: Server, op: Op, pc: Pc, i: nat, rounds: seq<Round>)
    requires |rounds| == 2
    ensures var (s1, pc1) := Step(s, op, pc, i, rounds[0].choice);
            Solo(s, op, pc, i, rounds) == Step(s1, op, pc1, i, rounds[1].choice)
  {
    assert Front(Front(rounds)) == [] && Last(Front(rounds)) == rounds[0];
    assert Solo(s, op, pc, i, Front(rounds)) == Step(s, op, pc, i, rounds[0].choice);
  }

  lemma ThreeRounds(s: Server, op: Op, pc: Pc, i: nat, rounds: seq<Round>)
    requires |rounds| == 3
    ensures var (s1, pc1) := Step(s, op, pc, i, rounds[0].choice);
            var (s2, pc2) := Step(s1, op, pc1, i, rounds[1].choice);
            Solo(s, op, pc, i, rounds) == Step(s2, op, pc2, i, rounds[2].choice)
  {
    TwoRounds(s, op, pc, i, Front(rounds));
  }

  /** An attempt of call i is about to begin: it was just invoked, or retries. */
  ghost predicate Begins(st: State, i: nat, op: Op) {
    i < |st.calls| && st.calls[i].op == op && st.calls[i].pc == FirstPc(op)
  }

  lemma InvokedBegins(actions: seq<Action>, op: Op)
    ensures Begins(Run(actions + [Invoke(op)]), |Run(actions).calls|, op)
    ensures Run(actions + [Invoke(op)]).server == Run(actions).server
  {
    RunSnoc(actions, Invoke(op));
  }

  /** Two requests make a pop of a queue that has elements: it returns the last of the array and removes
      it, unless others write before its guarded remove. */
  lemma UndisturbedPop(actions: seq<Action>, i: nat, rounds: seq<Round>)
    requires Begins(Run(actions), i, Pop) && |rounds| == 2 && Quiet(Run(actions), i, rounds)
    requires ContentsOf(Run(actions).server.doc) != []
    ensures var (st, st') := (Run(actions), Play(Run(actions), i, rounds));
            var (a, n) := (st.server.doc.items, |st.server.doc.items|);
            && i < |st'.calls| && st'.calls[i].pc == Done(Popped(a[n - 1]))
            && st'.server.doc.Present? && st'.server.doc.items == a[..n - 1]
  {
    RunInvariant(actions);
    PlaysSolo(Run(actions), i, rounds);
    TwoRounds(Run(actions).server, Pop, FirstPc(Pop), i, rounds);
    SoloPop(Run(actions).server, i, rounds[0].choice, rounds[1].choice);
  }

  lemma SoloPop(s: Server, i: nat, c1: Choice, c2: Choice)
    requires Consistent(s) && s.doc.Present? && s.doc.items != []
    ensures var (s1, pc1) := Step(s, Pop, FirstPc(Pop), i, c1); var (s2, pc2) := Step(s1, Pop, pc1, i, c2);
            var (a, n) := (s.doc.items, |s.doc.items|);
            pc2 == Done(Popped(a[n - 1])) && s2.doc.Present? && s2.doc.items == a[..n - 1]
  {
    var (s1, pc1) := Step(s, Pop, FirstPc(Pop), i, c1);
    assert s1 == s && pc1 == Guarded(Last(s.doc.items), -1, s.doc.cas);
    assert RemoveAt(s.doc.items, |s.doc.items| - 1) == s.doc.items[..|s.doc.items| - 1];
  }

  /** Two requests make a remove of a value that is present: its first occurrence goes. */
  lemma UndisturbedRemove(actions: seq<Action>, i: nat, v: Json, rounds: seq<Round>)
    requires Begins(Run(actions), i, Remove(v)) && |rounds| == 2 && Quiet(Run(actions), i, rounds)
    requires v in ContentsOf(Run(actions).server.doc)
    ensures var (st, st') := (Run(actions), Play(Run(actions), i, rounds)); var a := st.server.doc.items;
            && i < |st'.calls| && st'.calls[i].pc == Done(Returned) && st'.server.doc.Present?
            && exists k :: 0 <= k < |a| && a[k] == v && v !in a[..k] && st'.server.doc.items == a[..k] + a[k + 1..]
  {
    RunInvariant(actions);
    PlaysSolo(Run(actions), i, rounds);
    TwoRounds(Run(actions).server, Remove(v), FirstPc(Remove(v)), i, rounds);
    SoloRemove(Run(actions).server, v, i, rounds[0].choice, rounds[1].choice);
  }

  lemma SoloRemove(s: Server, v: Json, i: nat, c1: Choice, c2: Choice)
    requires Consistent(s) && s.doc.Present? && v in s.doc.items
    ensures var (s1, pc1) := Step(s, Remove(v), FirstPc(Remove(v)), i, c1);
            var (s2, pc2) := Step(s1, Remove(v), pc1, i, c2); var a := s.doc.items;
            && pc2 == Done(Returned) && s2.doc.Present?
            && exists k :: 0 <= k < |a| && a[k] == v && v !in a[..k] && s2.doc.items == a[..k] + a[k + 1..]
  {
    var (s1, pc1) := Step(s, Remove(v), FirstPc(Remove(v)), i, c1);
    var k := IndexOf(s.doc.items, v);
    assert s1 == s && pc1 == Guarded(v, k, s.doc.cas);
  }

  /** Every operation, on a document that exists or not: what it answers and leaves after three requests. */
  lemma UndisturbedCall(actions: seq<Action>, i: nat, op: Op, rounds: seq<Round>)
    requires Begins(Run(actions), i, op) && |rounds| == 3 && Quiet(Run(actions), i, rounds)
    ensures var (doc, st') := (Run(actions).server.doc, Play(Run(actions), i, rounds));
            i < |st'.calls| && Promised(op, doc, st'.calls[i].pc, st'.server.doc)
  {
    var s := Run(actions).server;
    RunInvariant(actions);
    PlaysSolo(Run(actions), i, rounds);
    ThreeRounds(s, op, FirstPc(op), i, rounds);
    var (c1, c2, c3) := (rounds[0].choice, rounds[1].choice, rounds[2].choice);
    match op {
      case Pop => SoloEmptyPop(s, i, c1, c2, c3);
      case Remove(v) => SoloRemoves(s, v, i, c1, c2, c3);
      case _ => SoloOther(s, op, i, c1, c2, c3);
    }
  }

  /** The promise of each operation, from the contents a before it. */
  ghost predicate Promised(op: Op, doc: Document, pc: Pc, doc': Document) {
    var (a, a') := (ContentsOf(doc), ContentsOf(doc'));
    match op
    case Push(v) => pc == Done(Returned) && doc'.Present? && a' == [v] + a
    case Pop =>
      if doc.Missing? then pc == Done(NoDocument) && doc' == doc
      else if a == [] then pc == Done(QueueEmpty) && doc' == doc
      else pc == Done(Popped(a[|a| - 1])) && doc'.Present? && a' == a[..|a| - 1]
    case Add(v) => pc == Done(Flag(v !in a)) && doc'.Present? && a' == if v in a then a else a + [v]
    case Remove(v) =>
      && pc == Done(Returned) && doc'.Present?
      && (v !in a ==> a' == a)
      && (v in a ==> exists k :: 0 <= k < |a| && a[k] == v && v !in a[..k] && a' == a[..k] + a[k + 1..])
    case Contains(v) => pc == Done(Flag(v in a)) && doc'.Present? && a' == a
    case GetAll => pc == Done(Listed(a)) && doc'.Present? && a' == a
    case Clear => pc == Done(Returned) && doc'.Missing?
  }

  ghost predicate KeepsPromise(s: Server, op: Op, i: nat, c1: Choice, c2: Choice, c3: Choice) {
    var (s1, pc1) := Step(s, op, FirstPc(op), i, c1);
    var (s2, pc2) := Step(s1, op, pc1, i, c2);
    var (s3, pc3) := Step(s2, op, pc2, i, c3);
    Promised(op, s.doc, pc3, s3.doc)
  }

  lemma SoloEmptyPop(s: Server, i: nat, c1: Choice, c2: Choice, c3: Choice)
    requires Consistent(s)
    ensures KeepsPromise(s, Pop, i, c1, c2, c3)
  {
    if s.doc.Present? && s.doc.items != [] {
      SoloPop(s, i, c1, c2);
    } else {
      var (s1, pc1) := Step(s, Pop, FirstPc(Pop), i, c1);
      assert s1 == s && (pc1.Done? || pc1 == Guarded(Null, -1, s.doc.cas));
      var (s2, pc2) := Step(s1, Pop, pc1, i, c2);
      assert s2 == s && pc2 == Done(if s.doc.Missing? then NoDocument else QueueEmpty);
    }
  }

  lemma SoloRemoves(s: Server, v: Json, i: nat, c1: Choice, c2: Choice, c3: Choice)
    requires Consistent(s)
    ensures KeepsPromise(s, Remove(v), i, c1, c2, c3)
  {
    var op := Remove(v);
    var (s1, pc1) := Step(s, op, FirstPc(op), i, c1);
    var (s2, pc2) := Step(s1, op, pc1, i, c2);
    if s.doc.Present? && v in s.doc.items {
      SoloRemove(s, v, i, c1, c2);
    } else if s.doc.Present? {
      assert s1 == s && pc1 == Done(Returned);
    } else {
      assert s1 == s && pc1 == Creating(0);
      assert s2.doc.Present? && s2.doc.items == [] && pc2 == Reading(0);
    }
  }

  lemma SoloOther(s: Server, op: Op, i: nat, c1: Choice, c2: Choice, c3: Choice)
    requires Consistent(s) && !op.Pop? && !op.Remove?
    ensures KeepsPromise(s, op, i, c1, c2, c3)
  {
    var (s1, pc1) := Step(s, op, FirstPc(op), i, c1);
    var (s2, pc2) := Step(s1, op, pc1, i, c2);
    if s.doc.Missing? && !op.Clear? {
      assert s1 == s && pc1.Creating?;
      assert s2.doc.Present? && s2.doc.items == [];
    }
  }

  /* How often an operation looks for a document that is gone each time. */

  /** The program counter after n looks, each of which finds no document; what is created in between is
      gone again by the next. */
  function AfterMisses(op: Op, n: nat): Pc {
    if n == 0 then FirstPc(op)
    else
      var pc := Receive(Bare(op, AfterMisses(op, n - 1)), DocumentNotFound);
      if pc.Creating? then Receive(Bare(op, pc), Ok) else pc
  }

  /** A pop looks once, contains four times, because its wrapper is around that of the read, and all others
      twice. */
  lemma GivesUpAfterMisses(op: Op, n: nat)
    requires !op.Clear?
    ensures AfterMisses(op, n) == Done(NoDocument) <==> n >= if op.Pop? then 1 else if op.Contains? then 4 else 2
  {
    if n >= 5 {
      GivesUpAfterMisses(op, n - 1);
    } else {
      assert AfterMisses(op, 0) == FirstPc(op);
      assert op.Contains? ==>
          AfterMisses(op, 1) == Reading(2) && AfterMisses(op, 2) == Reading(1) && AfterMisses(op, 3) == Reading(0);
    }
  }

  /** Whenever a call gives up for want of a document, there is none at that very step. */
  lemma GivesUpOnlyWithoutDocument(actions: seq<Action>, i: nat, choice: Choice)
    requires var st := Run(actions); i < |st.calls| && !st.calls[i].pc.Done?
    requires Run(actions + [Advance(i, choice)]).calls[i].pc == Done(NoDocument)
    ensures Run(actions).server.doc.Missing?
    ensures Run(actions + [Advance(i, choice)]).server == Run(actions).server
  {
    RunInvariant(actions);
    RunSnoc(actions, Advance(i, choice));
    assert CallHolds(Run(actions), i, Run(actions).calls[i]);
  }
}
