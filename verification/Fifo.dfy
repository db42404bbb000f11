/** Runs of push, pop, clear and reads simulate an atomic first-in first-out queue. */
module Fifo {
  import opened Sequences
  import opened Server
  import opened Protocol
  import opened Linearizability

  predicate QueueOp(op: Op) {
    op.Push? || op.Pop? || op.Clear? || op.GetAll?
  }

  ghost predicate QueueRun(actions: seq<Action>) {
    forall a :: a in actions && a.Invoke? ==> QueueOp(a.op)
  }

  /** The queue, front first: elements are pushed at the front of the array and popped from its end. */
  function QueueOf(doc: Document): seq<Json> {
    Reversed(ContentsOf(doc))
  }

  /** One operation of an atomic queue; None when the queue could not have answered so. */
  function Fifo(q: seq<Json>, op: Op, outcome: Outcome): Option<seq<Json>> {
    match op
    case Push(v) => if outcome.Returned? then Some(q + [v]) else None
    case Pop =>
      if q == [] then if outcome.QueueEmpty? || outcome.NoDocument? then Some(q) else None
      else if outcome == Popped(q[0]) then Some(q[1..]) else None
    case Clear => if outcome.Returned? then Some([]) else None
    case GetAll => if outcome == Listed(Reversed(q)) then Some(q) else None
    case _ => None
  }

  lemma SequentialIsFifo(a: seq<Json>, op: Op, outcome: Outcome)
    requires QueueOp(op) && Sequential(a, op, outcome).Some?
    ensures Fifo(Reversed(a), op, outcome) == Some(Reversed(Sequential(a, op, outcome).value))
  {
    match op {
      case Push(v) =>
        assert ([v] + a)[1..] == a;
      case Pop =>
        if a != [] { ReversedFront(a); }
      case _ =>
        ReversedTwice(a);
    }
  }

  /** Forward simulation: every action of every run is either invisible to the queue or one atomic
      queue operation with the outcome the call reports. */
  lemma EveryStepIsFifo(actions: seq<Action>, a: Action)
    requires QueueRun(actions + [a])
    ensures var (st, st') := (Run(actions), Run(actions + [a]));
            || (st'.log == st.log && QueueOf(st'.server.doc) == QueueOf(st.server.doc))
            || (|st'.log| == |st.log| + 1 && Front(st'.log) == st.log
                && Fifo(QueueOf(st.server.doc), Last(st'.log).op, Last(st'.log).outcome)
                   == Some(QueueOf(st'.server.doc)))
  {
    var st, st' := Run(actions), Run(actions + [a]);
    assert Front(actions + [a]) == actions && a in actions + [a];
    assert st' == Do(st, a);
    RunInvariant(actions);
    RunInvariant(actions + [a]);
    OnlyQueueOps(actions);
    if st'.log != st.log {
      assert Front(st'.log) == st.log;
      SequentialIsFifo(ContentsOf(st.server.doc), Last(st'.log).op, Last(st'.log).outcome);
    }
  }

  lemma {:induction false} OnlyQueueOps(actions: seq<Action>)
    requires QueueRun(actions)
    ensures forall i :: 0 <= i < |Run(actions).calls| ==> QueueOp(Run(actions).calls[i].op)
    decreases |actions|
  {
    if actions != [] {
      assert Last(actions) in actions;
      assert forall a :: a in Front(actions) ==> a in actions;
      OnlyQueueOps(Front(actions));
      assert Run(actions) == Do(Run(Front(actions)), Last(actions));
    }
  }

  /* Conservation. */

  /** The values pushed, in the order their pushes took effect. */
  function Pushed(log: seq<Entry>): seq<Json>
    decreases |log|
  {
    if log == [] then []
    else Pushed(Front(log)) + (if Last(log).op.Push? then [Last(log).op.v] else [])
  }

  /** What an operation on array a takes off the queue, front first. */
  function Leaving(a: seq<Json>, op: Op, outcome: Outcome): seq<Json> {
    if op.Pop? && outcome.Popped? then [outcome.v] else if op.Clear? then Reversed(a) else []
  }

  /** The values that left, in order: each popped value, and at a clear all that was queued. */
  function Departed(log: seq<Entry>): seq<Json>
    decreases |log|
  {
    if log == [] then []
    else
      match Replay(Front(log))
      case Some(a) => Departed(Front(log)) + Leaving(a, Last(log).op, Last(log).outcome)
      case None => Departed(Front(log))
  }

  lemma EntryConserves(a: seq<Json>, op: Op, outcome: Outcome)
    requires QueueOp(op) && Sequential(a, op, outcome).Some?
    ensures Reversed(a) + (if op.Push? then [op.v] else []) ==
            Leaving(a, op, outcome) + Reversed(Sequential(a, op, outcome).value)
  {
    match op {
      case Push(v) =>
        assert ([v] + a)[1..] == a;
      case Pop =>
        if a != [] { ReversedFront(a); }
      case _ =>
    }
  }

  lemma {:induction false} LogConserves(log: seq<Entry>)
    requires Replay(log).Some?
    requires forall k :: 0 <= k < |log| ==> QueueOp(log[k].op)
    ensures Pushed(log) == Departed(log) + Reversed(Replay(log).value)
    decreases |log|
  {
    if log != [] {
      LogConserves(Front(log));
      var a, e := Replay(Front(log)).value, Last(log);
      EntryConserves(a, e.op, e.outcome);
      Regroup(Departed(Front(log)), Reversed(a), if e.op.Push? then [e.op.v] else [],
              Leaving(a, e.op, e.outcome), Reversed(Replay(log).value));
    }
  }

  lemma Regroup<T>(left: seq<T>, before: seq<T>, arriving: seq<T>, leaving: seq<T>, after: seq<T>)
    requires before + arriving == leaving + after
    ensures (left + before) + arriving == (left + leaving) + after
  {
    assert (left + before) + arriving == left + (before + arriving);
    assert (left + leaving) + after == left + (leaving + after);
  }

  /** In every run, what was pushed is what left followed by what is queued: nothing is lost,
      duplicated, popped twice or overtaken. */
  lemma NothingIsLostOrDuplicated(actions: seq<Action>)
    requires QueueRun(actions)
    ensures var st := Run(actions); Pushed(st.log) == Departed(st.log) + QueueOf(st.server.doc)
  {
    OnlyQueueOps(actions);
    EveryRunIsLinearized(actions);
    LogConserves(Run(actions).log);
  }

  /** A pop returns exactly the element its guarded remove deletes, reports an empty queue only when
      there is no element at that very step, and writes nothing at any other step. */
  lemma PopDeletesWhatItReturns(actions: seq<Action>, i: nat, choice: Choice)
    requires var st := Run(actions); i < |st.calls| && st.calls[i].op.Pop? && !st.calls[i].pc.Done?
    ensures var (st, st') := (Run(actions), Run(actions + [Advance(i, choice)]));
            var pc := st'.calls[i].pc;
            && (pc.Done? && pc.outcome.Popped? ==>
                  QueueOf(st.server.doc) == [pc.outcome.v] + QueueOf(st'.server.doc))
            && (pc.Done? && (pc.outcome.QueueEmpty? || pc.outcome.NoDocument?) ==>
                  QueueOf(st.server.doc) == [] && st'.server == st.server)
            && (!pc.Done? || !pc.outcome.Popped? ==> st'.server == st.server)
  {
    var a := Advance(i, choice);
    var st := Run(actions);
    assert Front(actions + [a]) == actions && Run(actions + [a]) == Do(st, a);
    RunInvariant(actions);
    assert CallHolds(st, i, st.calls[i]);
    if st.calls[i].pc.Guarded? { GuardedPopDeletes(st, i, choice); }
  }

  lemma GuardedPopDeletes(st: State, i: nat, choice: Choice)
    requires i < |st.calls| && st.calls[i].op.Pop? && st.calls[i].pc.Guarded?
    requires CallHolds(st, i, st.calls[i]) && Consistent(st.server)
    ensures var st' := Exchange(st, i, choice); var pc := st'.calls[i].pc;
            && (pc.Done? && pc.outcome.Popped? ==>
                  QueueOf(st.server.doc) == [pc.outcome.v] + QueueOf(st'.server.doc))
            && (pc.Done? && (pc.outcome.QueueEmpty? || pc.outcome.NoDocument?) ==>
                  QueueOf(st.server.doc) == [] && st'.server == st.server)
            && (!pc.Done? || !pc.outcome.Popped? ==> st'.server == st.server)
  {
    GuardedPopTakesEffect(st.server, i, st.calls[i], choice);
    if ContentsOf(st.server.doc) != [] { ReversedFront(ContentsOf(st.server.doc)); }
  }
}
