/** The restartable asynchronous iterator of the queue (the list's is the same code), over the shared
    document: tasks call __anext__ on one object, and other clients change the document meanwhile. */
module AsyncIteration {
  import opened Sequences
  import opened Server
  import Protocol
  import opened Linearizability
  import opened Datastructures
  import opened SharedIterator
  import Reach

  /** The k-th effect of the log is a read that saw items, which is what the document held then. */
  ghost predicate ReadAt(log: seq<Protocol.Entry>, k: nat, items: seq<Json>) {
    k < |log| && log[k].op.GetAll? && log[k].outcome == Protocol.Listed(items)
    && Protocol.Replay(log[..k]) == Some(items)
  }

  ghost predicate IsRead(log: seq<Protocol.Entry>, items: seq<Json>) {
    exists k: nat :: ReadAt(log, k, items)
  }

  lemma {:induction false} ReplayPrefix(log: seq<Protocol.Entry>, n: nat)
    requires n <= |log| && Protocol.Replay(log).Some?
    ensures Protocol.Replay(log[..n]).Some?
    decreases |log|
  {
    if n < |log| {
      ReplayPrefix(Front(log), n);
      assert Front(log)[..n] == log[..n];
    } else {
      assert log[..n] == log;
    }
  }

  lemma FinishedReadIsLogged(actions: seq<Protocol.Action>, call: nat, items: seq<Json>)
    requires var st := Protocol.Run(actions);
             && call < |st.calls| && st.calls[call].op.GetAll?
             && st.calls[call].pc == Protocol.Done(Protocol.Listed(items))
    ensures var st := Protocol.Run(actions);
            st.calls[call].finish > 0 && ReadAt(st.log, st.calls[call].finish - 1, items)
  {
    var st := Protocol.Run(actions);
    Protocol.RunInvariant(actions);
    assert Protocol.CallHolds(st, call, st.calls[call]);
    var k := st.calls[call].finish - 1;
    ReplayPrefix(st.log, k + 1);
    assert Front(st.log[..k + 1]) == st.log[..k] && Last(st.log[..k + 1]) == st.log[k];
  }

  lemma LaterLogHasReads(log: seq<Protocol.Entry>, later: seq<Protocol.Entry>, items: seq<Json>)
    requires log <= later && IsRead(log, items)
    ensures IsRead(later, items)
  {
    var k: nat :| ReadAt(log, k, items);
    LaterLogHasReadAt(log, later, k, items);
  }

  lemma LaterLogHasReadAt(log: seq<Protocol.Entry>, later: seq<Protocol.Entry>, k: nat, items: seq<Json>)
    requires log <= later && ReadAt(log, k, items)
    ensures ReadAt(later, k, items)
  {
    assert later[..k] == log[..k];
  }

  /** Every pass, open or ended, began with what one read of the document saw. */
  ghost predicate BegunByReads(it: Iterator, log: seq<Protocol.Entry>) {
    && (it.iter ==> IsRead(log, it.current.snapshot))
    && (forall n :: 0 <= n < |it.done| ==> IsRead(log, it.done[n].snapshot))
  }

  lemma LaterLogKeepsPasses(it: Iterator, log: seq<Protocol.Entry>, later: seq<Protocol.Entry>)
    requires log <= later && BegunByReads(it, log)
    ensures BegunByReads(it, later)
  {
    if it.iter { LaterLogHasReads(log, later, it.current.snapshot); }
    forall n | 0 <= n < |it.done| ensures IsRead(later, it.done[n].snapshot) {
      LaterLogHasReads(log, later, it.done[n].snapshot);
    }
  }

  /* Shared objects over the document. */

  /** A read that finds the document takes effect next, and sees what it holds. */
  lemma ReadNext(actions: seq<Protocol.Action>) returns (more: seq<Protocol.Action>)
    requires Protocol.Run(actions).server.doc.Present?
    ensures var (st, st') := (Protocol.Run(actions), Protocol.Run(actions + more));
            st'.server == st.server && st.log <= st'.log && ReadAt(st'.log, |st.log|, st.server.doc.items)
  {
    var st := Protocol.Run(actions);
    more := Reach.ReadAlone(st);
    RunInParts(Protocol.Initial, actions, more);
    EveryRunIsLinearized(actions);
    assert Protocol.Run(actions + more).log[..|st.log|] == st.log;
  }

  lemma PushNext(actions: seq<Protocol.Action>, v: Json) returns (more: seq<Protocol.Action>)
    ensures var (st, st') := (Protocol.Run(actions), Protocol.Run(actions + more));
            && st'.server.doc.Present? && st'.server.doc.items == [v] + ContentsOf(st.server.doc)
            && st.log <= st'.log
  {
    var st := Protocol.Run(actions);
    Protocol.RunInvariant(actions);
    more := Reach.Insert(st, Protocol.Push(v));
    RunInParts(Protocol.Initial, actions, more);
    RunExtends(st, more);
  }

  /** Whatever the document holds, others can make the next read see something else than queue. */
  lemma ReadsOther(actions: seq<Protocol.Action>, queue: seq<Json>)
    returns (more: seq<Protocol.Action>, items: seq<Json>)
    ensures items != queue
    ensures var log := Protocol.Run(actions + more).log;
            exists k: nat :: |Protocol.Run(actions).log| <= k && ReadAt(log, k, items)
  {
    var push := PushNext(actions, OtherThanFirst(queue));
    var pushed := actions + push;
    var read := ReadNext(pushed);
    items := Protocol.Run(pushed).server.doc.items;
    assert items[0] == OtherThanFirst(queue);
    more := push + read;
    assert actions + more == pushed + read;
    ReadLater(actions, pushed, actions + more, items);
  }

  function OtherThanFirst(queue: seq<Json>): (v: Json)
    ensures queue != [] ==> v != queue[0]
  {
    if queue != [] && queue[0] == Null then Boolean(true) else Null
  }

  lemma ReadLater(actions: seq<Protocol.Action>, pushed: seq<Protocol.Action>, read: seq<Protocol.Action>,
                  items: seq<Json>)
    requires Protocol.Run(actions).log <= Protocol.Run(pushed).log
    requires ReadAt(Protocol.Run(read).log, |Protocol.Run(pushed).log|, items)
    ensures exists k: nat :: |Protocol.Run(actions).log| <= k && ReadAt(Protocol.Run(read).log, k, items)
  {
  }

  /** Every read that ends among these events took effect in the log, from place on. */
  ghost predicate ReadsFrom(more: seq<Event>, log: seq<Protocol.Entry>, place: nat) {
    forall e :: e in more && e.Got? ==> exists k: nat :: place <= k && ReadAt(log, k, e.items)
  }

  /** However the document got where it is, and whatever the tasks did: in all that clients and tasks may do
      next, the awaited reads taking effect after now, the open pass returns exactly its snapshot, if and
      only if it is whole so far and no task awaits a read. */
  lemma SharedPassIsWholeExactly(actions: seq<Protocol.Action>, events: seq<Event>)
    requires Run(events).iter
    ensures var it := Run(events);
            (forall later, more ::
               ReadsFrom(more, Protocol.Run(actions + later).log, |Protocol.Run(actions).log|) ==>
                 WholeAfter(it, more))
            <==> it.fetching == {} && PassHolds(it, |it.done|)
  {
    var it := Run(events);
    var place := |Protocol.Run(actions).log|;
    PassIsWholeExactly(events);
    if !PassHolds(it, |it.done|) {
      assert ReadsFrom([], Protocol.Run(actions + []).log, place);
      assert !WholeAfter(it, []);
    } else if it.fetching != {} {
      var t :| t in it.fetching;
      var later, items := ReadsOther(actions, it.queue);
      var more := [Got(t, items)];
      LateReadMixes(it, t, items);
      OneEvent(it, Got(t, items));
      assert ReadsFrom(more, Protocol.Run(actions + later).log, place);
      assert !WholeAfter(it, more);
    }
  }

  /** It happens: for every array and value, some run of clients lets two tasks read the array and, after a
      push of the value, the longer one; the pass that they share then holds a value of each. */
  lemma PassMixesTwoReads(a: seq<Json>, v: Json)
    returns (actions: seq<Protocol.Action>, first: nat, second: nat)
    requires a != []
    ensures var log := Protocol.Run(actions).log;
            first < second && ReadAt(log, first, a) && ReadAt(log, second, [v] + a)
    ensures var it := Run(TwoReaders(a) + [Got(1, [v] + a)]);
            it.iter && it.fetching == {} && it.current == Pass(a, [a[0], v]) && !PassHolds(it, 0)
  {
    var fill := Reach.EveryArrayIsReached(a);
    var read := ReadNext(fill);
    var push := PushNext(fill + read, v);
    actions := fill + read + push;
    var again := ReadNext(actions);
    first, second := |Protocol.Run(fill).log|, |Protocol.Run(actions).log|;
    LaterLogHasReadAt(Protocol.Run(fill + read).log, Protocol.Run(actions + again).log, first, a);
    actions := actions + again;
    TwoReadersMix(a, [v] + a);
  }

  class AsyncQueue {
    const structure: Structure
    /** Which tasks get to run at the k-th await. */
    const others: nat -> seq<nat>
    var iter: bool
    var fullQueue: seq<Json>
    var awaiting: set<nat>
    var awaits: nat
    ghost var events: seq<Event>

    constructor (structure: Structure, others: nat -> seq<nat>)
      requires structure.collection.Valid()
      ensures Valid() && events == [] && this.structure == structure && this.others == others
    {
      this.structure, this.others := structure, others;
      iter, fullQueue, awaiting, awaits, events := false, [], {}, 0, [];
    }

    ghost predicate Valid()
      reads this, structure.collection
    {
      && structure.collection.Valid() && Shows(Run(events))
      && BegunByReads(Run(events), structure.collection.world.log)
    }

    ghost predicate Shows(it: Iterator)
      reads this
    {
      iter == it.iter && fullQueue == it.queue && awaiting == it.fetching
    }

    /** Nobody but the caller uses the object. */
    ghost predicate Alone() {
      forall k :: others(k) == []
    }

    /** Whatever runs on the collection leaves the object and its passes intact. */
    twostate lemma SurvivesOthers()
      requires old(Valid()) && unchanged(this)
      requires structure.collection.Valid() && old(structure.collection.actions) <= structure.collection.actions
      ensures Valid()
    {
      var before, after := old(structure.collection.actions), structure.collection.actions;
      Protocol.RunInvariant(before);
      RunInParts(Protocol.Initial, before, after[|before|..]);
      RunExtends(Protocol.Run(before), after[|before|..]);
      assert before + after[|before|..] == after;
      LaterLogKeepsPasses(Run(events), old(structure.collection.world.log), structure.collection.world.log);
    }

    /** The last read that a task made of the document ended so. */
    ghost predicate ReadEnded(outcome: Protocol.Outcome)
      reads this, structure.collection
    {
      var own := structure.collection.own;
      own != [] && structure.collection.Has(Last(own), Protocol.GetAll, Protocol.Done(outcome))
    }

    /** The part of __anext__ after the read, or all of it in an open pass. */
    method TakeNext() returns (next: Next)
      requires iter
      modifies this`iter, this`fullQueue
      ensures next == Taken(old(fullQueue))
      ensures fullQueue == (if old(fullQueue) == [] then [] else old(fullQueue)[1..]) && iter == (old(fullQueue) != [])
    {
      if fullQueue == [] {
        iter := false;
        return StopAsyncIteration;
      }
      next := Value(fullQueue[0]);
      fullQueue := fullQueue[1..];
    }

    /** The part before the read. */
    method Begin(me: nat) returns (next: Option<Next>)
      requires Valid() && me !in awaiting
      modifies this`iter, this`fullQueue, this`awaiting, this`events
      ensures Valid() && events == old(events) + [Call(me)] && next == Answer(Run(old(events)), Call(me))
    {
      RunSnoc(events, Call(me));
      if !iter {
        awaiting := awaiting + {me};
        next := None;
      } else {
        var n := TakeNext();
        next := Some(n);
      }
      events := events + [Call(me)];
    }

    /** The read and the part after it. */
    method Finish(me: nat) returns (next: Next)
      requires Valid() && me in awaiting
      modifies this`iter, this`fullQueue, this`awaiting, this`events, structure.collection
      ensures Valid() && old(structure.collection.actions) <= structure.collection.actions
      ensures |structure.collection.own| == |old(structure.collection.own)| + 1
      ensures |events| == |old(events)| + 1 && Front(events) == old(events)
      ensures Last(events).task == me && !Last(events).Call?
      ensures Last(events).Got? ==> IsRead(structure.collection.world.log, Last(events).items)
      ensures ReadEnded(if Last(events).Got? then Protocol.Listed(Last(events).items) else Protocol.NoDocument)
      ensures Some(next) == Answer(Run(old(events)), Last(events))
    {
      var outcome, call := structure.GetAll();
      SurvivesOthers();
      awaiting := awaiting - {me};
      if outcome.NoDocument? {
        RunSnoc(events, Failed(me));
        events := events + [Failed(me)];
        return Raised;
      }
      FinishedReadIsLogged(structure.collection.actions, call, outcome.items);
      RunSnoc(events, Got(me, outcome.items));
      events := events + [Got(me, outcome.items)];
      fullQueue, iter := outcome.items, true;
      next := TakeNext();
    }

    /** At an await other tasks run: each begins a call, or finishes the one it awaits. */
    method OthersRun(me: nat)
      requires Valid()
      modifies this, structure.collection
      ensures Valid() && old(structure.collection.actions) <= structure.collection.actions
      ensures old(events) <= events && (me in awaiting <==> me in old(awaiting))
      ensures Alone() ==> events == old(events) && structure.collection.own == old(structure.collection.own)
    {
      var script := others(awaits);
      awaits := awaits + 1;
      label before:
      structure.collection.Interfere(|structure.collection.world.calls|);
      SurvivesOthers@before();
      for i := 0 to |script|
        invariant Valid() && old(structure.collection.actions) <= structure.collection.actions
        invariant old(events) <= events && (me in awaiting <==> me in old(awaiting))
        invariant Alone() ==> events == old(events) && structure.collection.own == old(structure.collection.own)
      {
        var task := script[i];
        if task != me {
          if task in awaiting { var _ := Finish(task); } else { var _ := Begin(task); }
        }
      }
    }

    /** __anext__, with other tasks running where it awaits. */
    method ANext(me: nat) returns (next: Next)
      requires Valid() && me !in awaiting
      modifies this, structure.collection
      ensures Valid() && me !in awaiting && old(structure.collection.actions) <= structure.collection.actions
      ensures old(events) + [Call(me)] <= events
      ensures Some(next) == Answer(Run(Front(events)), Last(events)) && Last(events).task == me
      ensures old(iter) ==> events == old(events) + [Call(me)] && unchanged(structure.collection)
      ensures !old(iter) ==> |events| > |old(events)| + 1 && !Last(events).Call?
      ensures Last(events).Got? ==> IsRead(structure.collection.world.log, Last(events).items)
      ensures !old(iter) ==>
                ReadEnded(if Last(events).Got? then Protocol.Listed(Last(events).items) else Protocol.NoDocument)
      ensures Alone() && !old(iter) ==> Front(events) == old(events) + [Call(me)]
                                        && |structure.collection.own| == |old(structure.collection.own)| + 1
    {
      var begun := Begin(me);
      if begun.Some? { return begun.value; }
      OthersRun(me);
      next := Finish(me);
    }

    /** A whole `async for` by the only task that uses the object, with other clients acting before every
        step: it makes one read and lists exactly what that read saw, or raises before listing anything. */
    method ForEach(me: nat) returns (items: seq<Json>, raised: bool)
      requires Valid() && Alone() && !iter && awaiting == {}
      modifies this, structure.collection
      ensures Valid() && !iter && awaiting == {}
      ensures |structure.collection.own| == |old(structure.collection.own)| + 1
      ensures !raised ==> IsRead(structure.collection.world.log, items)
      ensures raised ==> items == [] && ReadEnded(Protocol.NoDocument)
    {
      ghost var n := |Run(events).done|;
      items := [];
      var next := ANext(me);
      OpensPass(Run(old(events)), me, Last(events));
      while next.Value?
        invariant Valid() && awaiting == {} && |structure.collection.own| == |old(structure.collection.own)| + 1
        invariant Along(Run(events), n, items, next)
        invariant next.Raised? ==> ReadEnded(Protocol.NoDocument)
        decreases next.Value?, |fullQueue|
      {
        items := items + [next.v];
        label before:
        structure.collection.Interfere(|structure.collection.world.calls|);
        SurvivesOthers@before();
        ghost var it := Run(events);
        next := ANext(me);
        GoesAlong(it, n, me, items);
      }
      raised := next.Raised?;
    }
  }

  /** items were listed, and next answered after them, in pass n. */
  ghost predicate Along(it: Iterator, n: nat, items: seq<Json>, next: Next) {
    match next
    case Value(v) => it.iter && n == |it.done| && it.current.taken == items + [v] && PassHolds(it, n)
    case StopAsyncIteration => !it.iter && n < |it.done| && it.done[n].taken == items && PassHolds(it, n)
    case Raised => !it.iter && items == []
  }

  lemma OpensPass(it: Iterator, me: nat, e: Event)
    requires !it.iter && it.fetching == {} && e.task == me && !e.Call?
    ensures var called := SharedIterator.Do(it, Call(me));
            called.fetching == {me} && called.iter == it.iter
            && Along(SharedIterator.Do(called, e), |it.done|, [], Answer(called, e).value)
  {
  }

  lemma GoesAlong(it: Iterator, n: nat, me: nat, items: seq<Json>)
    requires it.iter && it.fetching == {} && n == |it.done| && it.current.taken == items && PassHolds(it, n)
    ensures Along(SharedIterator.Do(it, Call(me)), n, items, Answer(it, Call(me)).value)
  {
    TakeKeepsPass(it);
  }
}
