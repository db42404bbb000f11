/** Runs of add, remove, contains, clear and reads keep the array duplicate-free and act on its
    elements as on an atomic set. */
module SetSemantics {
  import opened Sequences
  import opened Server
  import opened Protocol
  import opened Linearizability

  predicate SetOp(op: Op) {
    op.Add? || op.Remove? || op.Contains? || op.Clear? || op.GetAll?
  }

  ghost predicate SetRun(actions: seq<Action>) {
    forall a :: a in actions && a.Invoke? ==> SetOp(a.op)
  }

  /** One operation of an atomic set; None when the set could not have answered so. */
  function AtomicSet(s: set<Json>, op: Op, outcome: Outcome): Option<set<Json>> {
    match op
    case Add(v) => if outcome == Flag(v !in s) then Some(s + {v}) else None
    case Remove(v) => if outcome.Returned? then Some(s - {v}) else None
    case Contains(v) => if outcome == Flag(v in s) then Some(s) else None
    case Clear => if outcome.Returned? then Some({}) else None
    case GetAll => if outcome.Listed? && Elements(outcome.items) == s && |outcome.items| == |s| then Some(s) else None
    case _ => None
  }

  function ReplaySet(log: seq<Entry>): Option<set<Json>>
    decreases |log|
  {
    if log == [] then Some({})
    else
      match ReplaySet(Front(log))
      case None => None
      case Some(s) => AtomicSet(s, Last(log).op, Last(log).outcome)
  }

  lemma WithoutRemovesOnly(a: seq<Json>, v: Json)
    requires NoDuplicates(a)
    ensures NoDuplicates(Without(a, v)) && Elements(Without(a, v)) == Elements(a) - {v}
  {
    var i := IndexOf(a, v);
    if i >= 0 {
      var b := RemoveAt(a, i);
      assert forall k :: 0 <= k < |b| ==> b[k] == a[if k < i then k else k + 1];
      forall x | x in a && x != v ensures x in b {
        var k :| 0 <= k < |a| && a[k] == x;
        assert b[if k < i then k else k - 1] == x;
      }
    }
  }

  lemma {:induction false} ElementsCount(a: seq<Json>)
    requires NoDuplicates(a)
    ensures |Elements(a)| == |a|
    decreases |a|
  {
    if a != [] {
      ElementsCount(Front(a));
      assert Elements(a) == Elements(Front(a)) + {Last(a)};
    }
  }

  lemma SequentialIsSet(a: seq<Json>, op: Op, outcome: Outcome)
    requires NoDuplicates(a) && SetOp(op) && Sequential(a, op, outcome).Some?
    ensures NoDuplicates(Sequential(a, op, outcome).value)
    ensures AtomicSet(Elements(a), op, outcome) == Some(Elements(Sequential(a, op, outcome).value))
  {
    match op {
      case Remove(v) => WithoutRemovesOnly(a, v);
      case Add(v) => assert Elements(a + [v]) == Elements(a) + {v}; assert v in a ==> Elements(a) + {v} == Elements(a);
      case GetAll => ElementsCount(a);
      case Clear => assert Elements<Json>([]) == {};
      case _ =>
    }
  }

  lemma {:induction false} LogIsSet(log: seq<Entry>)
    requires Replay(log).Some?
    requires forall k :: 0 <= k < |log| ==> SetOp(log[k].op)
    ensures NoDuplicates(Replay(log).value) && ReplaySet(log) == Some(Elements(Replay(log).value))
    decreases |log|
  {
    if log == [] {
      assert Elements(Replay(log).value) == {};
    } else {
      LogIsSet(Front(log));
      SequentialIsSet(Replay(Front(log)).value, Last(log).op, Last(log).outcome);
    }
  }

  lemma {:induction false} OnlySetOps(actions: seq<Action>)
    requires SetRun(actions)
    ensures forall i :: 0 <= i < |Run(actions).calls| ==> SetOp(Run(actions).calls[i].op)
    decreases |actions|
  {
    if actions != [] {
      assert Last(actions) in actions;
      assert forall a :: a in Front(actions) ==> a in actions;
      OnlySetOps(Front(actions));
      assert Run(actions) == Do(Run(Front(actions)), Last(actions));
    }
  }

  /** Every run keeps the array duplicate-free, and its log is a history of an atomic set that ends
      in the array's elements. */
  lemma EveryRunIsASet(actions: seq<Action>)
    requires SetRun(actions)
    ensures var st := Run(actions);
            && NoDuplicates(ContentsOf(st.server.doc))
            && ReplaySet(st.log) == Some(Elements(ContentsOf(st.server.doc)))
  {
    OnlySetOps(actions);
    EveryRunIsLinearized(actions);
    LogIsSet(Run(actions).log);
  }

  /** The last step of an add or a remove: add answers True iff the value was absent just before it,
      and then adds only that value; remove deletes only its value, which is absent afterwards. */
  lemma AddAndRemoveTouchOneValue(actions: seq<Action>, i: nat, choice: Choice)
    requires SetRun(actions)
    requires var st := Run(actions); i < |st.calls| && !st.calls[i].pc.Done?
    requires var c := Run(actions + [Advance(i, choice)]).calls[i]; c.pc.Done? && Logged(c.op, c.pc.outcome)
    ensures var (st, st') := (Run(actions), Run(actions + [Advance(i, choice)]));
            var (s, s') := (Elements(ContentsOf(st.server.doc)), Elements(ContentsOf(st'.server.doc)));
            var c := st'.calls[i];
            && (c.op.Add? ==> c.pc.outcome == Flag(c.op.v !in s) && s' == s + {c.op.v})
            && (c.op.Remove? ==> c.op.v !in s' && s' == s - {c.op.v})
            && (c.op.Contains? ==> c.pc.outcome == Flag(c.op.v in s) && s' == s)
  {
    var a := Advance(i, choice);
    var st, st' := Run(actions), Run(actions + [a]);
    assert Front(actions + [a]) == actions && st' == Do(st, a);
    assert SetRun(actions + [a]);
    EveryRunIsASet(actions);
    EveryRunIsASet(actions + [a]);
    assert Front(st'.log) == st.log;
  }

  /** While a remove is still trying it changes no contents, and it never asks for an index the
      array does not have. */
  lemma RemoveTouchesNothingElse(actions: seq<Action>, i: nat, choice: Choice)
    requires var st := Run(actions); i < |st.calls| && st.calls[i].op.Remove? && !st.calls[i].pc.Done?
    ensures var (st, st') := (Run(actions), Run(actions + [Advance(i, choice)]));
            var pc := st'.calls[i].pc;
            && (pc.Done? ==> !pc.outcome.NoPath?)
            && (!pc.Done? || !pc.outcome.Returned? ==> ContentsOf(st'.server.doc) == ContentsOf(st.server.doc))
  {
    var a := Advance(i, choice);
    var st := Run(actions);
    assert Front(actions + [a]) == actions && Run(actions + [a]) == Do(st, a);
    RunInvariant(actions);
    RunInvariant(actions + [a]);
    assert CallHolds(st, i, st.calls[i]);
    assert CallHolds(Run(actions + [a]), i, Run(actions + [a]).calls[i]);
  }
}
