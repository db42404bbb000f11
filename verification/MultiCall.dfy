/** The main thread's own program: it fills the futures, drains them and returns the dict, while the
    response threads run in between.  IncrementMulti puts it between the options and the result. */
module MultiCall {
  import opened Sequences
  import opened MultiOp
  import opened MultiCounter

  class MultiCall {
    const requests: seq<Request>
    /** What response threads try to do before the main thread's k-th step, and how keys are answered. */
    const others: nat -> seq<(nat, Response)>
    const responses: nat -> Response
    var st: State
    var steps: nat
    ghost var actions: seq<Action>

    ghost predicate Valid()
      reads this
    {
      && WellFormed(requests) && st == Run(requests, actions)
      && (Decided(others, responses) ==>
            forall i :: 0 <= i < |requests| ==> AnsweredBy(requests, actions, responses, i))
    }

    constructor (requests: seq<Request>, others: nat -> seq<(nat, Response)>, responses: nat -> Response)
      requires WellFormed(requests)
      ensures this.others == others && this.responses == responses
      ensures Valid() && this.requests == requests && st == MultiOp.Initial(requests)
    {
      this.requests, this.others, this.responses := requests, others, responses;
      st, steps, actions := MultiOp.Initial(requests), 0, [];
    }

    method Take(a: Action)
      requires Valid()
      requires a.CallbackStep? && Decided(others, responses) ==> a.response == responses(a.i) || !st.gil.Free?
      modifies this
      ensures Valid() && st == Do(old(st), requests, a) && steps == old(steps)
    {
      assert Front(actions + [a]) == actions;
      forall i | 0 <= i < |requests| && Decided(others, responses)
        ensures AnsweredBy(requests, actions + [a], responses, i)
      {
        assert AnsweredBy(requests, actions, responses, i);
      }
      actions := actions + [a];
      st := Do(st, requests, a);
    }

    /** Response threads run; the main thread does not. */
    method Interleave()
      requires Valid()
      modifies this
      ensures Valid() && st.main == old(st.main)
    {
      var script := others(steps);
      steps := steps + 1;
      for i := 0 to |script|
        invariant Valid() && st.main == old(st.main)
      {
        Take(CallbackStep(script[i].0, script[i].1));
      }
    }

    /** Whoever holds the GIL runs on until it lets go. */
    method WaitForGil()
      requires Valid() && !st.gil.ByMain?
      modifies this
      ensures Valid() && st.main == old(st.main) && st.gil.Free?
    {
      RunInvariant(requests, actions);
      Interleave();
      RunInvariant(requests, actions);
      while st.gil.ByCallback?
        invariant Valid() && st.main == old(st.main) && !st.gil.ByMain?
        decreases Work(st) + 1
      {
        RunInvariant(requests, actions);
        assert SlotHolds(st, requests[st.gil.i], st.gil.i);
        var a := CallbackStep(st.gil.i, Success);
        StepsAreBounded(requests, actions, a);
        Take(a);
        RunInvariant(requests, actions);
      }
    }

    /** op_results[n].get(): the GIL is released until the promise is fulfilled. */
    method WaitForPromise(n: nat)
      requires Valid() && st.main == Awaiting(n) && n < |requests|
      modifies this
      ensures Valid() && st.main == Awaiting(n) && st.slots[n].promise.Some?
    {
      Interleave();
      if st.slots[n].promise.Some? { return; }
      RunInvariant(requests, actions);
      WaitForGil();
      while st.slots[n].promise.None?
        invariant Valid() && st.main == Awaiting(n)
        invariant st.slots[n].promise.None? ==> st.gil.Free? || st.gil == ByCallback(n)
        decreases Work(st) + 1
      {
        RunInvariant(requests, actions);
        assert SlotHolds(st, requests[n], n);
        var a := CallbackStep(n, responses(n));
        StepsAreBounded(requests, actions, a);
        Take(a);
      }
    }

    /** handle_binary_multi_op after its arguments are parsed. */
    method Handle() returns (dict: map<string, Entry>)
      requires Valid() && st == MultiOp.Initial(requests) && forall r :: r in requests ==> !r.dispatch.Throws?
      modifies this
      ensures Valid() && st.main.Returned? && dict == st.dict
    {
      for n := 0 to |requests|
        invariant Valid() && st.main == Dispatching(n)
      {
        Take(MainStep);
        if requests[n].dispatch.Sent? {
          RunInvariant(requests, actions);
          WaitForGil();
          Take(MainStep);
        }
      }
      Take(MainStep);
      for n := 0 to |requests|
        invariant Valid() && st.main == Draining(n)
      {
        Take(MainStep);
        WaitForPromise(n);
        Take(MainStep);
        RunInvariant(requests, actions);
        WaitForGil();
        Take(MainStep);
      }
      Take(MainStep);
      dict := st.dict;
    }
  }

  /** A counter operation is recognised and takes no value, so each key's request is sent. */
  /** The server's answers are settled: the k-th time that others run, p.1 is what it answers to key p.0. */
  ghost predicate Decided(others: nat -> seq<(nat, Response)>, responses: nat -> Response) {
    forall k: nat, p :: p in others(k) ==> p.1 == responses(p.0)
  }

  ghost predicate AnsweredBy(requests: seq<Request>, actions: seq<Action>, responses: nat -> Response, i: nat)
    requires i < |requests|
  {
    ServerAnswer(requests, actions, i).Some? ==> ServerAnswer(requests, actions, i) == Some(responses(i))
  }

  function Requests(order: seq<string>): (requests: seq<Request>)
    ensures |requests| == |order|
    ensures forall i :: 0 <= i < |order| ==> requests[i] == Request(order[i], Sent)
  {
    seq(|order|, i requires 0 <= i < |order| => Request(order[i], Sent))
  }

  datatype Multi = Multi(allOk: bool, results: set<string>, exceptions: set<string>)
  datatype Answer = Answered(multi: Multi) | InvalidArgument | RaisedEntry

  /** The keys that the server did not answer with success, or never saw. */
  ghost function Failed(requests: seq<Request>, actions: seq<Action>): set<string> {
    set i | 0 <= i < |requests| && !requests[i].dispatch.Unrecognised?
            && ServerAnswer(requests, actions, i) != Some(Success) :: requests[i].key
  }

  /** The server answered each key.  The call raises iff some answer was no success and exceptions are not
      to be returned; else the exceptions are exactly the keys whose answer was no success, the results
      exactly the others, and all_ok says that every answer was one. */
  ghost predicate TellsAnswers(order: seq<string>, actions: seq<Action>, returnExceptions: bool, answer: Answer) {
    var requests := Requests(order);
    && Run(requests, actions).main.Returned?
    && (forall i :: 0 <= i < |order| ==> ServerAnswer(requests, actions, i).Some?)
    && (answer.RaisedEntry? <==>
          !returnExceptions && exists i :: 0 <= i < |order| && ServerAnswer(requests, actions, i) != Some(Success))
    && (answer.Answered? ==>
          && (forall i :: 0 <= i < |order| ==>
                && (order[i] in answer.multi.exceptions <==> ServerAnswer(requests, actions, i) != Some(Success))
                && (order[i] in answer.multi.results <==> ServerAnswer(requests, actions, i) == Some(Success)))
          && answer.multi.exceptions + answer.multi.results == Elements(order)
          && (answer.multi.allOk <==>
                forall i :: 0 <= i < |order| ==> ServerAnswer(requests, actions, i) == Some(Success)))
  }

  /** increment_multi, end to end, whatever the interleaving and the responses.  It is refused iff its
      options are not accepted; otherwise it made some run over its distinct keys, and tells what the
      server answered to each.  Those answers are the ones in responses, if these are what it answers. */
  method IncrementMulti(keys: seq<string>, global: Args, perKey: map<string, Args>, returnExceptions: bool,
                        others: nat -> seq<(nat, Response)>, responses: nat -> Response)
    returns (answer: Answer, ghost order: seq<string>, ghost actions: seq<Action>)
    requires forall k :: k in keys ==> k != "" && k != ALL_OKAY
    ensures answer.InvalidArgument? <==> !Accepted(keys, global, perKey)
    ensures !answer.InvalidArgument? ==>
              && NoDuplicates(order) && Elements(order) == Elements(keys)
              && TellsAnswers(order, actions, returnExceptions, answer)
              && (Decided(others, responses) ==>
                    forall i :: 0 <= i < |order| ==> ServerAnswer(Requests(order), actions, i) == Some(responses(i)))
  {
    order, actions := [], [];
    var built := GetMultiCounterOpArgs(keys, global, perKey);
    if built.None? { return InvalidArgument, order, actions; }
    order := built.value.order;
    FirstOccurrencesAreDistinct(keys);
    OrderIsSound(keys, order);
    answer, actions := SendAll(built.value.order, returnExceptions, others, responses);
  }

  /** The call of the binding, and the result object made of what it returns. */
  method SendAll(order: seq<string>, returnExceptions: bool,
                 others: nat -> seq<(nat, Response)>, responses: nat -> Response)
    returns (answer: Answer, ghost actions: seq<Action>)
    requires WellFormed(Requests(order))
    ensures !answer.InvalidArgument? && TellsAnswers(order, actions, returnExceptions, answer)
    ensures Decided(others, responses) ==>
              forall i :: 0 <= i < |order| ==> ServerAnswer(Requests(order), actions, i) == Some(responses(i))
  {
    var requests := Requests(order);
    var call := new MultiCall(requests, others, responses);
    var raw := call.Handle();
    actions := call.actions;
    RawIsTyped(requests, actions);
    answer := Conclude(raw, returnExceptions);
    ConclusionTells(order, actions, returnExceptions, answer);
    forall i | 0 <= i < |order| && Decided(others, responses)
      ensures ServerAnswer(requests, actions, i) == Some(responses(i))
    {
      assert AnsweredBy(requests, actions, responses, i);
    }
  }

  /** What Conclude answered. */
  ghost predicate Concluded(raw: map<string, Entry>, returnExceptions: bool, answer: Answer) {
    && !answer.InvalidArgument?
    && (answer.RaisedEntry? <==> !returnExceptions && exists k :: k in raw && raw[k].Exception?)
    && (answer.Answered? ==> ALL_OKAY in raw && raw[ALL_OKAY].AllOkay?
                             && answer.multi == Multi(raw[ALL_OKAY].ok, KeysOfKind(raw, true), KeysOfKind(raw, false)))
  }

  lemma ConclusionTells(order: seq<string>, actions: seq<Action>, returnExceptions: bool, answer: Answer)
    requires WellFormed(Requests(order)) && Run(Requests(order), actions).main.Returned?
    requires Concluded(Run(Requests(order), actions).dict, returnExceptions, answer)
    ensures TellsAnswers(order, actions, returnExceptions, answer)
  {
    OutcomeByAnswers(order, actions);
  }

  /** What the raw dict of a run over counter requests says, answer by answer. */
  lemma OutcomeByAnswers(order: seq<string>, actions: seq<Action>)
    requires WellFormed(Requests(order)) && Run(Requests(order), actions).main.Returned?
    ensures var (requests, raw) := (Requests(order), Run(Requests(order), actions).dict);
            && (forall i :: 0 <= i < |order| ==>
                  && ServerAnswer(requests, actions, i).Some?
                  && (order[i] in KeysOfKind(raw, false) <==> ServerAnswer(requests, actions, i) != Some(Success))
                  && (order[i] in KeysOfKind(raw, true) <==> ServerAnswer(requests, actions, i) == Some(Success)))
            && KeysOfKind(raw, true) + KeysOfKind(raw, false) == Elements(order)
            && ((exists k :: k in raw && raw[k].Exception?) <==>
                  exists i :: 0 <= i < |order| && ServerAnswer(requests, actions, i) != Some(Success))
            && ALL_OKAY in raw && raw[ALL_OKAY].AllOkay?
            && (raw[ALL_OKAY].ok <==>
                  forall i :: 0 <= i < |order| ==> ServerAnswer(requests, actions, i) == Some(Success))
  {
    var requests := Requests(order);
    OutcomeIsAPartition(requests, actions);
    ExceptionsAreFailures(requests, actions);
    KeysOf(order, requests);
    FailedByIndex(order, actions);
    forall i | 0 <= i < |order| ensures order[i] in Elements(order) {}
  }

  lemma FailedByIndex(order: seq<string>, actions: seq<Action>)
    requires WellFormed(Requests(order)) && Run(Requests(order), actions).main.Returned?
    ensures var requests := Requests(order);
            && (forall i :: 0 <= i < |order| ==> ServerAnswer(requests, actions, i).Some?)
            && (forall i :: 0 <= i < |order| ==>
                  (order[i] in Failed(requests, actions) <==> ServerAnswer(requests, actions, i) != Some(Success)))
            && (Failed(requests, actions) != {} <==>
                  exists i :: 0 <= i < |order| && ServerAnswer(requests, actions, i) != Some(Success))
  {
    var requests := Requests(order);
    forall i | 0 <= i < |order|
      ensures ServerAnswer(requests, actions, i).Some?
      ensures order[i] in Failed(requests, actions) <==> ServerAnswer(requests, actions, i) != Some(Success)
    {
      EachKeyIsReportedAsAnswered(requests, actions, i);
      if order[i] in Failed(requests, actions) {
        var j :| 0 <= j < |requests| && requests[j].key == order[i]
                 && ServerAnswer(requests, actions, j) != Some(Success);
        assert requests[if i < j then i else j].key == requests[if i < j then j else i].key;
      }
    }
    if k :| k in Failed(requests, actions) {
      var j :| 0 <= j < |requests| && requests[j].key == k && ServerAnswer(requests, actions, j) != Some(Success);
    }
    if i :| 0 <= i < |order| && ServerAnswer(requests, actions, i) != Some(Success) {
      assert order[i] in Failed(requests, actions);
    }
  }

  method Conclude(raw: map<string, Entry>, returnExceptions: bool) returns (answer: Answer)
    requires forall k :: k in raw && k != ALL_OKAY ==> !raw[k].AllOkay?
    requires ALL_OKAY in raw && raw[ALL_OKAY].AllOkay?
    ensures Concluded(raw, returnExceptions, answer)
  {
    var made := MakeMultiResult(raw, returnExceptions);
    if made.None? { return RaisedEntry; }
    var results := Select(made.value, true);
    var exceptions := Select(made.value, false);
    return Answered(Multi(made.value.allOk, results.Keys, exceptions.Keys));
  }

  lemma ExceptionsAreFailures(requests: seq<Request>, actions: seq<Action>)
    requires WellFormed(requests) && Run(requests, actions).main.Returned?
    ensures KeysOfKind(Run(requests, actions).dict, false) == Failed(requests, actions)
  {
    EntriesAreReports(requests, actions);
    var st := Run(requests, actions);
    forall i | 0 <= i < |requests|
      ensures !requests[i].dispatch.Unrecognised? && ServerAnswer(requests, actions, i) != Some(Success) <==>
                requests[i].key in st.dict && !st.dict[requests[i].key].Result?
    {
      EachKeyIsReportedAsAnswered(requests, actions, i);
      AnswerIsKept(requests, actions, i);
      ReturnedMeansSettled(requests, actions, i);
    }
    forall k | k in KeysOfKind(st.dict, false) ensures k in Failed(requests, actions) {
      assert k in Reportable(requests);
      var i :| 0 <= i < |requests| && requests[i].key == k;
    }
    forall k | k in Failed(requests, actions) ensures k in KeysOfKind(st.dict, false) {
      var i :| 0 <= i < |requests| && !requests[i].dispatch.Unrecognised?
               && ServerAnswer(requests, actions, i) != Some(Success) && requests[i].key == k;
    }
  }

  lemma ReturnedMeansSettled(requests: seq<Request>, actions: seq<Action>, i: nat)
    requires WellFormed(requests) && i < |requests| && Run(requests, actions).main.Returned?
    ensures Run(requests, actions).slots[i].callback.Settled?
  {
    RunInvariant(requests, actions);
    ReturnedIsSettled(Run(requests, actions), requests, i);
  }

  lemma OrderIsSound(keys: seq<string>, order: seq<string>)
    requires forall k :: k in keys ==> k != "" && k != ALL_OKAY
    requires Elements(order) == Elements(keys)
    ensures forall i :: 0 <= i < |order| ==> order[i] != "" && order[i] != ALL_OKAY
  {
    forall i | 0 <= i < |order| ensures order[i] in keys {
      assert order[i] in Elements(order);
    }
  }

  lemma KeysOf(order: seq<string>, requests: seq<Request>)
    requires requests == Requests(order)
    ensures Reportable(requests) == Elements(order)
  {
    forall k | k in Elements(order) ensures k in Reportable(requests) {
      var i :| 0 <= i < |order| && order[i] == k;
      assert requests[i].key == k;
    }
  }

  lemma RawIsTyped(requests: seq<Request>, actions: seq<Action>)
    requires WellFormed(requests) && Run(requests, actions).main.Returned?
    ensures var raw := Run(requests, actions).dict;
            (forall k :: k in raw && k != ALL_OKAY ==> !raw[k].AllOkay?) && ALL_OKAY in raw && raw[ALL_OKAY].AllOkay?
  {
    ReturnedDictIsComplete(requests, actions);
    var raw := Run(requests, actions).dict;
    forall k | k in raw && k != ALL_OKAY ensures !raw[k].AllOkay? {
      var i :| 0 <= i < |requests| && requests[i].key == k;
      assert Reported(Run(requests, actions), requests, i);
    }
  }
}
