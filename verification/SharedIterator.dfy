/** One asynchronous iterator object that any number of tasks call __anext__ on.  The call awaits only
    between looking at _iter and installing what it read, so those are its steps. */
module SharedIterator {
  import opened Sequences
  import opened Server

  /** What the read that opened a pass saw, and the values returned since, in order. */
  datatype Pass = Pass(snapshot: seq<Json>, taken: seq<Json>)

  /** iter and queue are the object's fields, fetching the tasks that await their read.  current and done
      are history: the pass that is open while iter holds, and the ones that ended. */
  datatype Iterator = Iterator(iter: bool, queue: seq<Json>, fetching: set<nat>, current: Pass, done: seq<Pass>)

  /** A task calls __anext__, or its read ends. */
  datatype Event = Call(task: nat) | Got(task: nat, items: seq<Json>) | Failed(task: nat)

  datatype Next = Value(v: Json) | StopAsyncIteration | Raised

  const Fresh := Iterator(false, [], {}, Pass([], []), [])

  function Install(it: Iterator, items: seq<Json>): Iterator {
    it.(iter := true, queue := items, current := if it.iter then it.current else Pass(items, []))
  }

  function Take(it: Iterator): Iterator {
    if it.queue == [] then it.(iter := false, done := it.done + [it.current])
    else it.(queue := it.queue[1..], current := it.current.(taken := it.current.taken + [it.queue[0]]))
  }

  function Taken(queue: seq<Json>): Next {
    if queue == [] then StopAsyncIteration else Value(queue[0])
  }

  /** A task that awaits cannot call, and only one that awaits can get. */
  function Do(it: Iterator, e: Event): Iterator {
    match e
    case Call(t) =>
      if t in it.fetching then it else if it.iter then Take(it) else it.(fetching := it.fetching + {t})
    case Got(t, items) =>
      if t in it.fetching then Take(Install(it.(fetching := it.fetching - {t}), items)) else it
    case Failed(t) => it.(fetching := it.fetching - {t})
  }

  /** What the task's call answers at an event, if it ends there. */
  function Answer(it: Iterator, e: Event): Option<Next> {
    match e
    case Call(t) => if it.iter then Some(Taken(it.queue)) else None
    case Got(_, items) => Some(Taken(items))
    case Failed(_) => Some(Raised)
  }

  function RunFrom(it: Iterator, events: seq<Event>): Iterator
    decreases |events|
  {
    if events == [] then it else Do(RunFrom(it, Front(events)), Last(events))
  }

  function Run(events: seq<Event>): Iterator {
    RunFrom(Fresh, events)
  }

  lemma RunSnoc(events: seq<Event>, e: Event)
    ensures Run(events + [e]) == Do(Run(events), e)
  {
    assert Front(events + [e]) == events;
  }

  /** Pass n returns its one snapshot: all of it by the time it ends, and until then a prefix, the rest of
      which is queued. */
  ghost predicate PassHolds(it: Iterator, n: nat) {
    && (n < |it.done| ==> it.done[n].taken == it.done[n].snapshot)
    && (n == |it.done| && it.iter ==> it.current.taken + it.queue == it.current.snapshot)
  }

  lemma TakeKeepsPass(it: Iterator)
    requires it.iter && PassHolds(it, |it.done|)
    ensures PassHolds(Take(it), |it.done|)
  {
    if it.queue == [] {
      assert it.current.taken + it.queue == it.current.taken;
    } else {
      assert it.current.taken + [it.queue[0]] + it.queue[1..] == it.current.taken + it.queue;
    }
  }

  /** While nobody awaits a read, an open pass stays whole, and once it ended nothing reaches it. */
  lemma {:induction false} AloneStaysWhole(it: Iterator, more: seq<Event>)
    requires it.iter && it.fetching == {} && PassHolds(it, |it.done|)
    ensures var it' := RunFrom(it, more); var n := |it.done|;
            PassHolds(it', n) && n <= |it'.done| && (n == |it'.done| ==> it'.iter && it'.fetching == {})
    decreases |more|
  {
    if more != [] {
      AloneStaysWhole(it, Front(more));
      var mid := RunFrom(it, Front(more));
      if |mid.done| == |it.done| {
        TakeKeepsPass(mid);
        assert Do(mid, Last(more)) == if Last(more).Call? then Take(mid) else mid;
      } else {
        assert mid.done <= Do(mid, Last(more)).done;
      }
    }
  }

  /** A read that ends in an open pass leaves it whole only if it saw exactly what was still queued. */
  lemma LateReadMixes(it: Iterator, t: nat, items: seq<Json>)
    requires it.iter && t in it.fetching && PassHolds(it, |it.done|)
    ensures PassHolds(Do(it, Got(t, items)), |it.done|) <==> items == it.queue
  {
    var taken := it.current.taken;
    assert it.current.snapshot == taken + it.queue;
    var installed := Install(it.(fetching := it.fetching - {t}), items);
    if items == [] {
      assert Take(installed).done[|it.done|].taken == taken;
      assert taken == taken + it.queue <==> it.queue == [] by {
        assert |taken + it.queue| == |taken| + |it.queue|;
      }
    } else {
      assert taken + [items[0]] + items[1..] == taken + items;
      assert taken + items == taken + it.queue ==> items == it.queue by {
        assert (taken + items)[|taken|..] == items && (taken + it.queue)[|taken|..] == it.queue;
      }
    }
  }

  lemma OneEvent(it: Iterator, e: Event)
    ensures RunFrom(it, [e]) == Do(it, e)
  {
    assert Front([e]) == [];
  }

  /** The open pass of it is whole when these events have happened. */
  ghost predicate WholeAfter(it: Iterator, more: seq<Event>) {
    PassHolds(RunFrom(it, more), |it.done|)
  }

  /** The open pass of any reachable object returns exactly its snapshot, whatever the tasks do next, if
      and only if it is whole so far and no task awaits a read. */
  lemma PassIsWholeExactly(events: seq<Event>)
    requires Run(events).iter
    ensures var it := Run(events);
            (forall more :: WholeAfter(it, more)) <==> it.fetching == {} && PassHolds(it, |it.done|)
  {
    var it := Run(events);
    if it.fetching == {} && PassHolds(it, |it.done|) {
      forall more ensures WholeAfter(it, more) {
        AloneStaysWhole(it, more);
      }
    } else if !PassHolds(it, |it.done|) {
      assert !WholeAfter(it, []);
    } else {
      var t :| t in it.fetching;
      var items := it.queue + [Null];
      LateReadMixes(it, t, items);
      OneEvent(it, Got(t, items));
      assert !WholeAfter(it, [Got(t, items)]);
    }
  }

  /** Two tasks begin before either has read: while the second awaits, the first opens a pass and takes. */
  function TwoReaders(first: seq<Json>): seq<Event> {
    [Call(0), Call(1), Got(0, first)]
  }

  /** Then the second read replaces the queue: the open pass took a value of each read and nobody awaits,
      but it is whole only if the second read saw just what the first had left. */
  lemma TwoReadersMix(first: seq<Json>, second: seq<Json>)
    requires first != [] && second != []
    ensures var it := Run(TwoReaders(first));
            it.iter && it.fetching == {1} && it.done == [] && PassHolds(it, 0)
    ensures var it := Run(TwoReaders(first) + [Got(1, second)]);
            && it.iter && it.fetching == {} && it.done == [] && it.queue == second[1..]
            && it.current == Pass(first, [first[0], second[0]])
            && (PassHolds(it, 0) <==> second == first[1..])
  {
    RunSnoc([], Call(0));
    RunSnoc([Call(0)], Call(1));
    RunSnoc([Call(0), Call(1)], Got(0, first));
    assert [] + [Call(0)] == [Call(0)] && [Call(0)] + [Call(1)] == [Call(0), Call(1)];
    assert [Call(0), Call(1)] + [Got(0, first)] == TwoReaders(first);
    var it := Run(TwoReaders(first));
    assert it.fetching == {1} && it.current == Pass(first, [first[0]]) && it.queue == first[1..];
    assert [first[0]] + first[1..] == first;
    LateReadMixes(it, 1, second);
    RunSnoc(TwoReaders(first), Got(1, second));
  }

  /** At the very step that opens a pass, its values are the snapshot's. */
  lemma OpenedPassHolds(it: Iterator, t: nat, items: seq<Json>)
    requires t in it.fetching && !it.iter
    ensures PassHolds(Do(it, Got(t, items)), |it.done|)
  {
  }

  /** At no time more than one task awaits a read: for instance, because there is one task. */
  ghost predicate OneReader(events: seq<Event>) {
    forall n :: 0 <= n <= |events| ==> |Run(events[..n]).fetching| <= 1
  }

  /** Then every pass, open or ended, returns exactly its snapshot. */
  lemma {:induction false} OneReaderKeepsPassesWhole(events: seq<Event>, n: nat)
    requires OneReader(events)
    ensures PassHolds(Run(events), n)
    ensures Run(events).iter ==> Run(events).fetching == {}
    decreases |events|
  {
    if events != [] {
      var front := Front(events);
      forall k | 0 <= k <= |front| ensures |Run(front[..k]).fetching| <= 1 {
        assert front[..k] == events[..k];
      }
      OneReaderKeepsPassesWhole(front, n);
      assert front[..|front|] == front;
      OneReaderStep(Run(front), Last(events), n);
    }
  }

  lemma OneReaderStep(it: Iterator, e: Event, n: nat)
    requires PassHolds(it, n) && (it.iter ==> it.fetching == {}) && |it.fetching| <= 1
    ensures PassHolds(Do(it, e), n) && (Do(it, e).iter ==> Do(it, e).fetching == {})
  {
    match e {
      case Call(t) =>
        if it.iter && n == |it.done| { TakeKeepsPass(it); }
      case Got(t, items) =>
        if t in it.fetching {
          assert |it.fetching - {t}| == |it.fetching| - 1;
          var installed := Install(it.(fetching := it.fetching - {t}), items);
          assert [] + items == items;
          TakeKeepsPass(installed);
        }
      case Failed(t) =>
    }
  }
}
