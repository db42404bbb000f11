/** Why attempts fail, and what a call that gives up has done. */
module Progress {
  import opened Sequences
  import opened Server
  import opened Protocol
  import opened Linearizability
  import opened Reach

  /** A CAS mismatch is caused by others: between the attempt's read and its write only other calls
      acted, and at least one of their mutations succeeded. */
  lemma MismatchIsCausedByAnother(before: seq<Action>, i: nat, read: Choice, after: seq<Action>, write: Choice)
    requires var st := Run(before); i < |st.calls| && st.calls[i].pc.Reading?
    requires Exchange(Run(before), i, read).calls[i].pc.Guarded? && NotBy(after, i)
    requires var st := Run(before + [Advance(i, read)] + after);
             && i < |st.calls| && st.calls[i].pc.Guarded?
             && Serve(st.server, i, Pending(st.calls[i]), write).1.CasMismatch?
    ensures var n := |Run(before).server.writes|;
            var writes := Run(before + [Advance(i, read)] + after).server.writes;
            n < |writes| && forall k :: n <= k < |writes| ==> writes[k].call != i
  {
    var st := Run(before);
    RunInvariant(before);
    CasNamesContents(before, i, read, after);
    RunInParts(Initial, before, [Advance(i, read)]);
    RunInParts(Initial, before + [Advance(i, read)], after);
    assert Front([Advance(i, read)]) == [];
    var mid := Do(st, Advance(i, read));
    assert RunFrom(st, [Advance(i, read)]) == mid;
    DoKeepsInvariant(st, Advance(i, read));
    OthersLeaveCall(mid, after, i);
    RunInvariant(before + [Advance(i, read)] + after);
    MismatchHasWitness(Run(before + [Advance(i, read)] + after), i, write);
  }

  /** The failed attempts of one call never outnumber the mutations others made since it began. */
  lemma FailuresAreBounded(actions: seq<Action>, i: nat)
    requires i < |Run(actions).calls|
    ensures var st := Run(actions); st.calls[i].failures <= OthersWrites(st.server.writes, st.calls[i].begun, i)
  {
    RunInvariant(actions);
    assert CallHolds(Run(actions), i, Run(actions).calls[i]);
  }

  /** A call that pauses before a retry, or that timed out, met a CAS mismatch in its last attempt: since
      its read in that attempt others wrote, and it did not. */
  lemma RetryIsCausedByAnother(actions: seq<Action>, i: nat)
    requires i < |Run(actions).calls|
    requires var pc := Run(actions).calls[i].pc; pc.Pausing? || pc == Done(TimedOut)
    ensures var st := Run(actions); var c := st.calls[i];
            && c.failures > 0 && c.begun <= c.window < |st.server.writes|
            && forall k :: c.window <= k < |st.server.writes| ==> st.server.writes[k].call != i
  {
    RunInvariant(actions);
    assert CallHolds(Run(actions), i, Run(actions).calls[i]);
  }

  /** OthersWrites counts. */
  lemma {:induction false} OthersWritesCounts(writes: seq<Write>, from: nat, i: nat)
    ensures OthersWrites(writes, from, i) == |set k | from <= k < |writes| && writes[k].call != i|
    decreases |writes|
  {
    var ks := set k | from <= k < |writes| && writes[k].call != i;
    if |writes| <= from {
      assert ks == {};
    } else {
      var n := |writes| - 1;
      OthersWritesCounts(Front(writes), from, i);
      var front := set k | from <= k < n && Front(writes)[k].call != i;
      assert ks == if writes[n].call != i then front + {n} else front;
    }
  }

  /** The bound counts only writes after the call was invoked. */
  lemma BegunIsTheInvocation(before: seq<Action>, op: Op, after: seq<Action>)
    ensures var i := |Run(before).calls|;
            var st := Run(before + [Invoke(op)] + after);
            i < |st.calls| && st.calls[i].op == op && st.calls[i].begun == |Run(before).server.writes|
  {
    var i := |Run(before).calls|;
    RunInParts(Initial, before, [Invoke(op)]);
    RunInParts(Initial, before + [Invoke(op)], after);
    assert Front([Invoke(op)]) == [];
    assert RunFrom(Run(before), [Invoke(op)]) == Do(Run(before), Invoke(op));
    BegunStays(Run(before + [Invoke(op)]), after, i);
  }

  lemma {:induction false} BegunStays(st: State, actions: seq<Action>, i: nat)
    requires i < |st.calls|
    ensures var st' := RunFrom(st, actions);
            i < |st'.calls| && st'.calls[i].op == st.calls[i].op && st'.calls[i].begun == st.calls[i].begun
    decreases |actions|
  {
    if actions != [] {
      BegunStays(st, Front(actions), i);
    }
  }

  /** Timeouts are unambiguous: a call that timed out is a pop or a remove, is in no log, and whatever it
      wrote was an empty document; a pop wrote nothing at all. */
  lemma TimeoutIsUnambiguous(actions: seq<Action>, i: nat)
    requires i < |Run(actions).calls| && Run(actions).calls[i].pc == Done(TimedOut)
    ensures var st := Run(actions);
            && (st.calls[i].op.Pop? || st.calls[i].op.Remove?)
            && (forall k :: 0 <= k < |st.log| ==> st.log[k].call != i)
            && (forall k :: 0 <= k < |st.server.writes| && st.server.writes[k].call == i ==>
                  st.server.writes[k].created && st.calls[i].op.Remove?)
  {
    RunInvariant(actions);
    assert CallHolds(Run(actions), i, Run(actions).calls[i]);
    EveryRunIsLinearized(actions);
  }

  /* When a timed-out remove is silent. */

  ghost predicate NoClearPending(st: State) {
    forall j :: 0 <= j < |st.calls| && st.calls[j].op.Clear? ==> st.calls[j].pc.Done?
  }

  /** If the remove that is invoked after a run times out, it made no mutation of any kind. */
  ghost predicate Silent(before: seq<Action>, v: Json, after: seq<Action>) {
    var st := Run(before + [Invoke(Remove(v))] + after);
    var i := |Run(before).calls|;
    i < |st.calls| && st.calls[i].pc == Done(TimedOut) ==>
      forall k :: 0 <= k < |st.server.writes| ==> st.server.writes[k].call != i
  }

  /** Whatever ran before and whatever is removed: the timeout is silent in every continuation in which no
      clear begins, exactly if the document is there and no clear of it is under way when remove is called.
      The same holds of the continuations in which nothing but adds begins. */
  lemma TimedOutRemoveIsSilent(before: seq<Action>, v: Json)
    ensures (forall after :: Invoke(Clear) !in after ==> Silent(before, v, after))
            <==> Run(before).server.doc.Present? && NoClearPending(Run(before))
    ensures (forall after :: OnlyAdds(after) ==> Silent(before, v, after))
            <==> Run(before).server.doc.Present? && NoClearPending(Run(before))
  {
    var st := Run(before);
    if st.server.doc.Present? && NoClearPending(st) {
      forall after | Invoke(Clear) !in after ensures Silent(before, v, after) {
        TimedOutRemoveWroteNothing(before, v, after);
      }
      assert forall after :: OnlyAdds(after) ==> Invoke(Clear) !in after;
    } else {
      var s0 := Do(st, Invoke(Remove(v)));
      assert !NoClearPending(st) ==> !NoClearPending(s0) by {
        assert forall j :: 0 <= j < |st.calls| ==> s0.calls[j] == st.calls[j];
      }
      var after := TimedOutRemoveCreated(before, v, []);
      assert [] + after == after;
      assert OnlyAdds(after) && !Silent(before, v, after);
    }
  }

  /** If clears may begin as well, no call of remove is sure to be silent. */
  lemma ClearsBreakSilence(before: seq<Action>, v: Json)
    ensures exists after :: !Silent(before, v, after)
  {
    RunInvariant(before + [Invoke(Remove(v))]);
    InvokedIsNew(before, v);
    var clear := [Invoke(Clear)];
    OneStep(Run(before + [Invoke(Remove(v))]), Invoke(Clear));
    var j := |Run(before).calls| + 1;
    assert RunFrom(Run(before + [Invoke(Remove(v))]), clear).calls[j].pc == Dropping;
    var rest := TimedOutRemoveCreated(before, v, clear);
    assert !Silent(before, v, clear + rest);
  }

  lemma InvokedIsNew(before: seq<Action>, v: Json)
    ensures Run(before + [Invoke(Remove(v))]) == Do(Run(before), Invoke(Remove(v)))
    ensures forall after ::
              Run(before + [Invoke(Remove(v))] + after) == RunFrom(Do(Run(before), Invoke(Remove(v))), after)
  {
    RunSnoc(before, Invoke(Remove(v)));
    forall after
      ensures Run(before + [Invoke(Remove(v))] + after) == RunFrom(Do(Run(before), Invoke(Remove(v))), after)
    {
      RunInParts(Initial, before + [Invoke(Remove(v))], after);
    }
  }

  lemma TimedOutRemoveWroteNothing(before: seq<Action>, v: Json, after: seq<Action>)
    requires Run(before).server.doc.Present? && NoClearPending(Run(before)) && Invoke(Clear) !in after
    ensures Silent(before, v, after)
  {
    var i := |Run(before).calls|;
    var st := Do(Run(before), Invoke(Remove(v)));
    RunInvariant(before);
    InvokedIsNew(before, v);
    DoKeepsInvariant(Run(before), Invoke(Remove(v)));
    SettledStays(st, after, i);
  }

  /** Once the document is missing, or a clear is about to drop it, others can make remove create the
      document and then lose every race.  first is what happens right after the invocation. */
  lemma TimedOutRemoveCreated(before: seq<Action>, v: Json, first: seq<Action>) returns (rest: seq<Action>)
    requires var st := RunFrom(Do(Run(before), Invoke(Remove(v))), first); var i := |Run(before).calls|;
             && i < |st.calls| && st.calls[i].op == Remove(v) && st.calls[i].pc == Reading(1)
             && (st.server.doc.Missing? || !NoClearPending(st))
    ensures OnlyAdds(rest) && !Silent(before, v, first + rest)
  {
    var i := |Run(before).calls|;
    var s0 := Do(Run(before), Invoke(Remove(v)));
    RunInvariant(before);
    DoKeepsInvariant(Run(before), Invoke(Remove(v)));
    RunKeepsInvariant(s0, first);
    rest := DropsAndTimesOut(RunFrom(s0, first), i, v);
    RunInParts(s0, first, rest);
    InvokedIsNew(before, v);
    NotSilent(before, v, first + rest);
  }

  lemma DropsAndTimesOut(st: State, i: nat, v: Json) returns (actions: seq<Action>)
    requires Invariant(st) && i < |st.calls| && st.calls[i].op == Remove(v) && st.calls[i].pc == Reading(1)
    requires st.server.doc.Missing? || !NoClearPending(st)
    ensures OnlyAdds(actions)
    ensures var st' := RunFrom(st, actions);
            i < |st'.calls| && st'.calls[i].pc == Done(TimedOut) && Write(i, true) in st'.server.writes
  {
    var drop := DropDocument(st);
    RunKeepsInvariant(st, drop);
    var rest := CreatesAndTimesOut(RunFrom(st, drop), i, v);
    RunInParts(st, drop, rest);
    actions := drop + rest;
  }

  lemma NotSilent(before: seq<Action>, v: Json, after: seq<Action>)
    requires var st := Run(before + [Invoke(Remove(v))] + after); var i := |Run(before).calls|;
             i < |st.calls| && st.calls[i].pc == Done(TimedOut) && Write(i, true) in st.server.writes
    ensures !Silent(before, v, after)
  {
    var st := Run(before + [Invoke(Remove(v))] + after);
    var k :| 0 <= k < |st.server.writes| && st.server.writes[k] == Write(|Run(before).calls|, true);
    assert st.server.writes[k].call == |Run(before).calls|;
  }

  lemma DropDocument(st: State) returns (actions: seq<Action>)
    requires Invariant(st) && (st.server.doc.Missing? || !NoClearPending(st))
    ensures OnlyAdds(actions)
    ensures var st' := RunFrom(st, actions);
            && st'.server.doc.Missing? && |st'.calls| == |st.calls|
            && forall i :: 0 <= i < |st.calls| && !st.calls[i].op.Clear? ==> st'.calls[i] == st.calls[i]
  {
    if st.server.doc.Missing? { return []; }
    var j :| 0 <= j < |st.calls| && st.calls[j].op.Clear? && !st.calls[j].pc.Done?;
    assert CallHolds(st, j, st.calls[j]);
    OneStep(st, Advance(j, GO));
    return [Advance(j, GO)];
  }

  /** The document is there to stay, and call i, a remove, has no reason to create one. */
  ghost predicate Settled(st: State, i: nat) {
    && st.server.doc.Present? && NoClearPending(st)
    && i < |st.calls| && PcFits(st.calls[i]) && st.calls[i].op.Remove? && !st.calls[i].pc.Creating?
    && (forall k :: 0 <= k < |st.server.writes| && st.server.writes[k].call == i ==> st.calls[i].pc == Done(Returned))
  }

  lemma {:induction false} SettledStays(st: State, actions: seq<Action>, i: nat)
    requires Invariant(st) && Settled(st, i) && Invoke(Clear) !in actions
    ensures Settled(RunFrom(st, actions), i)
    decreases |actions|
  {
    if actions != [] {
      assert Invoke(Clear) !in Front(actions) && Last(actions) in actions;
      SettledStays(st, Front(actions), i);
      RunKeepsInvariant(st, Front(actions));
      SettledStep(RunFrom(st, Front(actions)), Last(actions), i);
    }
  }

  lemma SettledStep(st: State, a: Action, i: nat)
    requires Invariant(st) && Settled(st, i) && a != Invoke(Clear)
    ensures Settled(Do(st, a), i)
  {
    if a.Advance? && a.call < |st.calls| && !st.calls[a.call].pc.Done? {
      assert CallHolds(st, a.call, st.calls[a.call]);
      DocumentStays(st, a.call, a.choice);
      if a.call == i { SettledExchange(st, i, a.choice); } else { OtherKeepsSettled(st, a.call, a.choice, i); }
    }
  }

  lemma DocumentStays(st: State, j: nat, choice: Choice)
    requires j < |st.calls| && !st.calls[j].pc.Done? && PcFits(st.calls[j])
    requires st.server.doc.Present? && NoClearPending(st)
    ensures Exchange(st, j, choice).server.doc.Present? && NoClearPending(Exchange(st, j, choice))
  {
    assert Pending(st.calls[j]) != RemoveDocument;
  }

  lemma OtherKeepsSettled(st: State, j: nat, choice: Choice, i: nat)
    requires j < |st.calls| && !st.calls[j].pc.Done? && j != i && Consistent(st.server) && Settled(st, i)
    requires Exchange(st, j, choice).server.doc.Present? && NoClearPending(Exchange(st, j, choice))
    ensures Settled(Exchange(st, j, choice), i)
  {
    ServeFollows(st.server, j, Pending(st.calls[j]), choice);
    var s, s' := st.server, Exchange(st, j, choice).server;
    forall k | 0 <= k < |s'.writes| && s'.writes[k].call == i ensures k < |s.writes| && s.writes[k].call == i {
      if s'.writes != s.writes && k < |s.writes| { assert s'.writes[..|s.writes|][k] == s.writes[k]; }
    }
  }

  lemma SettledExchange(st: State, i: nat, choice: Choice)
    requires Consistent(st.server) && Settled(st, i) && !st.calls[i].pc.Done? && CallHolds(st, i, st.calls[i])
    requires Exchange(st, i, choice).server.doc.Present? && NoClearPending(Exchange(st, i, choice))
    ensures Settled(Exchange(st, i, choice), i)
  {
    ExchangeKeepsPc(st, i, choice);
  }
}
