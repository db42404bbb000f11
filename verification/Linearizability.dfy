/** Every run of the protocol is linearizable: its log is a legal sequential history, holds each
    completed call once with the outcome the call reported, and respects real-time order. */
module Linearizability {
  import opened Sequences
  import opened Server
  import opened Protocol

  /** Runs only add: what was logged, written or finished stays as it was. */
  ghost predicate Extends(st: State, later: State) {
    && st.log <= later.log
    && st.server.writes <= later.server.writes
    && |st.calls| <= |later.calls|
    && (forall i :: 0 <= i < |st.calls| ==> later.calls[i].op == st.calls[i].op
                                            && (st.calls[i].pc.Done? ==> later.calls[i] == st.calls[i]))
  }

  lemma DoExtends(st: State, a: Action)
    requires Invariant(st)
    ensures Extends(st, Do(st, a))
  {
    if a.Advance? && a.call < |st.calls| && !st.calls[a.call].pc.Done? {
      ServeFollows(st.server, a.call, Pending(st.calls[a.call]), a.choice);
    }
  }

  lemma {:induction false} RunExtends(st: State, actions: seq<Action>)
    requires Invariant(st)
    ensures Extends(st, RunFrom(st, actions))
    decreases |actions|
  {
    if actions != [] {
      RunExtends(st, Front(actions));
      RunKeepsInvariant(st, Front(actions));
      DoExtends(RunFrom(st, Front(actions)), Last(actions));
    }
  }

  lemma {:induction false} RunInParts(st: State, first: seq<Action>, second: seq<Action>)
    ensures RunFrom(st, first + second) == RunFrom(RunFrom(st, first), second)
    decreases |second|
  {
    if second == [] {
      assert first + second == first;
    } else {
      assert Front(first + second) == first + Front(second);
      RunInParts(st, first, Front(second));
    }
  }

  ghost predicate Linearized(st: State) {
    && Replay(st.log) == Some(ContentsOf(st.server.doc))
    && (forall k :: 0 <= k < |st.log| ==>
          var e := st.log[k];
          && e.call < |st.calls| && st.calls[e.call].op == e.op && st.calls[e.call].pc == Done(e.outcome)
          && Logged(e.op, e.outcome))
    && (forall i :: 0 <= i < |st.calls| && st.calls[i].pc.Done? && Logged(st.calls[i].op, st.calls[i].pc.outcome) ==>
          Entry(i, st.calls[i].op, st.calls[i].pc.outcome) in st.log)
    && (forall j, k :: 0 <= j < k < |st.log| ==> st.log[j].call != st.log[k].call)
  }

  lemma EveryRunIsLinearized(actions: seq<Action>)
    ensures Linearized(Run(actions))
    ensures var st := Run(actions);
            forall i, outcome :: 0 <= i < |st.calls| && st.calls[i].pc == Done(outcome) && outcome != TimedOut
                                 && (outcome == NoDocument ==> st.calls[i].op.Pop?) ==>
              Entry(i, st.calls[i].op, outcome) in st.log
  {
    RunInvariant(actions);
    var st := Run(actions);
    forall k | 0 <= k < |st.log|
      ensures var e := st.log[k];
              && e.call < |st.calls| && st.calls[e.call].op == e.op && st.calls[e.call].pc == Done(e.outcome)
              && Logged(e.op, e.outcome) && st.calls[e.call].finish == k + 1
    {
      assert EntryHolds(st, k);
      assert CallHolds(st, st.log[k].call, st.calls[st.log[k].call]);
    }
    forall i | 0 <= i < |st.calls| && st.calls[i].pc.Done? && Logged(st.calls[i].op, st.calls[i].pc.outcome)
      ensures Entry(i, st.calls[i].op, st.calls[i].pc.outcome) in st.log
    {
      assert CallHolds(st, i, st.calls[i]);
    }
  }

  /** A call that was done before another began comes before it in the log. */
  lemma LogRespectsRealTime(before: seq<Action>, after: seq<Action>, a: nat, b: nat, j: nat, k: nat)
    requires a < |Run(before).calls| && Run(before).calls[a].pc.Done? && b >= |Run(before).calls|
    requires j < |Run(before + after).log| && Run(before + after).log[j].call == a
    requires k < |Run(before + after).log| && Run(before + after).log[k].call == b
    ensures j < k
  {
    var st, st' := Run(before), Run(before + after);
    RunInvariant(before);
    RunInvariant(before + after);
    RunInParts(Initial, before, after);
    RunExtends(st, after);
    assert EntryHolds(st', j);
    assert CallHolds(st, a, st.calls[a]);
    forall m | 0 <= m < |st.log| ensures st.log[m].call < |st.calls| {
      assert EntryHolds(st, m);
    }
  }

  /** Calls that time out, or that give up because the document keeps disappearing, have no effect
      on the contents: they are not in the log of any run. */
  lemma UnloggedCallsHaveNoEffect(actions: seq<Action>, i: nat, k: nat)
    requires i < |Run(actions).calls| && k < |Run(actions).log|
    requires var c := Run(actions).calls[i]; !c.pc.Done? || !Logged(c.op, c.pc.outcome)
    ensures Run(actions).log[k].call != i
  {
    EveryRunIsLinearized(actions);
  }

  /* The snapshot law, over whole runs. */

  ghost predicate NotBy(actions: seq<Action>, i: nat) {
    forall a :: a in actions && a.Advance? ==> a.call != i
  }

  lemma {:induction false} OthersLeaveCall(st: State, actions: seq<Action>, i: nat)
    requires i < |st.calls| && NotBy(actions, i)
    ensures |RunFrom(st, actions).calls| >= |st.calls| && RunFrom(st, actions).calls[i] == st.calls[i]
    decreases |actions|
  {
    if actions != [] {
      assert NotBy(Front(actions), i);
      OthersLeaveCall(st, Front(actions), i);
      assert Last(actions) in actions;
    }
  }

  /** No ABA: after call i read under some CAS, however many other actions follow (clears and
      re-creations included), the document has that CAS again only with the contents i read. */
  lemma CasNamesContents(before: seq<Action>, i: nat, choice: Choice, after: seq<Action>)
    requires var st := Run(before); i < |st.calls| && st.calls[i].pc.Reading?
    requires Exchange(Run(before), i, choice).calls[i].pc.Guarded?
    requires NotBy(after, i)
    ensures var st := Run(before); var st' := Run(before + [Advance(i, choice)] + after);
            && i < |st'.calls| && st'.calls[i].pc.Guarded? && st'.calls[i].pc.cas != 0
            && st.server.doc.Present?
            && (st'.server.doc.Present? && st'.server.doc.cas == st'.calls[i].pc.cas ==>
                  st'.server.doc.items == st.server.doc.items)
            && (st'.server.writes == st.server.writes ==> st'.server.doc == st.server.doc)
  {
    var st := Run(before);
    var read := Do(st, Advance(i, choice));
    assert RunFrom(st, [Advance(i, choice)]) == read by {
      assert Front([Advance(i, choice)]) == [];
    }
    RunInvariant(before);
    assert CallHolds(st, i, st.calls[i]);
    DoKeepsInvariant(st, Advance(i, choice));
    RunInParts(Initial, before, [Advance(i, choice)]);
    RunInParts(Initial, before + [Advance(i, choice)], after);
    OthersLeaveCall(read, after, i);
    RunInvariant(before + [Advance(i, choice)] + after);
    var st' := Run(before + [Advance(i, choice)] + after);
    assert CallHolds(st', i, st'.calls[i]);
  }
}
