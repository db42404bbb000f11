/** handle_binary_multi_op: the main thread sends one request per key and waits for one promise per
    key; each response arrives on a thread of its own, which fulfils the promise before it writes the
    shared result dict.  Threads interleave arbitrarily, but for the interpreter lock (GIL). */
module MultiOp {
  import opened Sequences

  /** What becomes of a key: its request is sent; its value is no bytes object; the operation is not
      recognised; or sending the request throws. */
  datatype Dispatch = Sent | NotBytes | Unrecognised | Throws

  datatype Request = Request(key: string, dispatch: Dispatch)

  datatype Response = Success | ServerError | Unbuildable

  datatype Fulfilled = True | False | ExceptionObject

  datatype Entry = Result | Exception | AllOkay(ok: bool)

  /** Where the main thread is.  It must hold the GIL while Dispatching, Draining and when Returned.
      Unguarded: an exception left the block in which it had released the GIL, so it goes on without;
      nothing is said of what follows. */
  datatype Main =
    | Dispatching(n: nat)
    | Executing(n: nat)
    | Draining(n: nat)
    | Awaiting(n: nat)
    | Got(n: nat, value: Fulfilled)
    | Returned
    | Unguarded(n: nat)

  /** Where the thread of a key's response is.  It holds the GIL while Entered, Promised or Stored;
      Settled is the end, also of a key whose request was never sent. */
  datatype Callback =
    | Unsent
    | InFlight
    | Entered(response: Response)
    | Promised(response: Response)
    | Stored(response: Response)
    | Settled

  datatype Gil = Free | ByMain | ByCallback(i: nat)

  /** Per key: the thread, the promise, how often it was fulfilled, the references the promise's value
      still owes, and the references to the key's result or exception. */
  datatype Slot = Slot(callback: Callback, promise: Option<Fulfilled>, fulfilments: nat, owed: int, entryRefs: int)

  datatype State = State(gil: Gil, main: Main, slots: seq<Slot>, dict: map<string, Entry>, allOkay: bool)

  datatype Action = MainStep | CallbackStep(i: nat, response: Response)

  const ALL_OKAY := "all_okay"

  /** Keys are distinct, and one operation is asked for all of them. */
  ghost predicate WellFormed(requests: seq<Request>) {
    && (forall i :: 0 <= i < |requests| ==> requests[i].key != "" && requests[i].key != ALL_OKAY)
    && (forall i, j :: 0 <= i < j < |requests| ==> requests[i].key != requests[j].key)
    && (forall i, j :: 0 <= i < |requests| && 0 <= j < |requests| && requests[i].dispatch.Unrecognised? ==>
          requests[j].dispatch.Unrecognised?)
  }

  function Initial(requests: seq<Request>): State {
    State(ByMain, Dispatching(0), seq(|requests|, _ => Slot(Unsent, None, 0, 0, 0)), map[], true)
  }

  function Fulfil(slot: Slot, value: Fulfilled): Slot {
    slot.(promise := Some(value), fulfilments := slot.fulfilments + 1, owed := slot.owed + 1)
  }

  function EntryOf(response: Response): Entry {
    if response.Success? then Result else Exception
  }

  function StepMain(st: State, requests: seq<Request>): State
    requires |st.slots| == |requests|
  {
    match st.main
    case Dispatching(n) =>
      if n >= |requests| then st.(main := Draining(0))
      else if requests[n].dispatch.Sent? then
        st.(gil := Free, main := Executing(n), slots := st.slots[n := st.slots[n].(callback := InFlight)])
      else if requests[n].dispatch.NotBytes? then
        // the entry is built, stored and released, and only then is the promise fulfilled
        var slot := Fulfil(st.slots[n].(entryRefs := st.slots[n].entryRefs + 1), False);
        st.(main := Dispatching(n + 1), slots := st.slots[n := slot.(callback := Settled)],
            dict := st.dict[requests[n].key := Exception])
      else if requests[n].dispatch.Unrecognised? then
        st.(main := Dispatching(n + 1),
            slots := st.slots[n := Fulfil(st.slots[n], ExceptionObject).(callback := Settled)])
      else
        // the exception skips the statement that takes the GIL again
        st.(gil := Free, main := Unguarded(n))
    case Executing(n) => if st.gil.Free? then st.(gil := ByMain, main := Dispatching(n + 1)) else st
    case Draining(n) =>
      if n < |requests| then st.(gil := Free, main := Awaiting(n))
      else st.(main := Returned, dict := st.dict[ALL_OKAY := AllOkay(st.allOkay)])
    case Awaiting(n) =>
      if n < |requests| && st.slots[n].promise.Some? then st.(main := Got(n, st.slots[n].promise.value)) else st
    case Got(n, value) =>
      if n < |requests| && st.gil.Free? then
        st.(gil := ByMain, main := Draining(n + 1), allOkay := st.allOkay && !value.False?,
            slots := st.slots[n := st.slots[n].(owed := st.slots[n].owed - 1)])
      else st
    case Returned => st
    case Unguarded(_) => st
  }

  function StepCallback(st: State, requests: seq<Request>, i: nat, response: Response): State
    requires |st.slots| == |requests| && i < |requests|
  {
    var slot := st.slots[i];
    match slot.callback
    case InFlight =>
      if st.gil.Free? then
        st.(gil := ByCallback(i),
            slots := st.slots[i := slot.(callback := Entered(response), entryRefs := slot.entryRefs + 1)])
      else st
    case Entered(r) =>
      st.(slots := st.slots[i := Fulfil(slot, if r.Success? then True else False).(callback := Promised(r))])
    case Promised(r) =>
      st.(dict := st.dict[requests[i].key := EntryOf(r)],
          slots := st.slots[i := slot.(callback := Stored(r), entryRefs := slot.entryRefs + 1)])
    case Stored(r) =>
      st.(gil := Free, slots := st.slots[i := slot.(callback := Settled, entryRefs := slot.entryRefs - 1)])
    case _ => st
  }

  /** An action whose thread cannot move changes nothing. */
  function Do(st: State, requests: seq<Request>, a: Action): State
    requires |st.slots| == |requests|
  {
    match a
    case MainStep => StepMain(st, requests)
    case CallbackStep(i, response) => if i < |requests| then StepCallback(st, requests, i, response) else st
  }

  function Run(requests: seq<Request>, actions: seq<Action>): (st: State)
    ensures |st.slots| == |requests|
    decreases |actions|
  {
    if actions == [] then Initial(requests) else Do(Run(requests, Front(actions)), requests, Last(actions))
  }

  /* What every run keeps. */

  /** How many keys have been dispatched, and how many promises drained. */
  function Sending(st: State): nat {
    match st.main
    case Dispatching(n) => n
    case Executing(n) => n + 1
    case Unguarded(n) => n
    case _ => |st.slots|
  }

  function Drained(st: State): nat {
    match st.main
    case Draining(n) => n
    case Awaiting(n) => n
    case Got(n, _) => n
    case Returned => |st.slots|
    case _ => 0
  }

  ghost predicate NoneFalse(slots: seq<Slot>, n: nat)
    requires n <= |slots|
  {
    forall i :: 0 <= i < n ==> slots[i].promise != Some(False)
  }

  lemma NoneFalseFrame(slots: seq<Slot>, slots': seq<Slot>, n: nat)
    requires n <= |slots| == |slots'|
    requires forall i :: 0 <= i < n ==> slots'[i].promise == slots[i].promise
    ensures NoneFalse(slots', n) <==> NoneFalse(slots, n)
  {
    if NoneFalse(slots', n) {
      forall i | 0 <= i < n ensures slots[i].promise != Some(False) {
        assert slots'[i].promise == slots[i].promise;
      }
    }
  }

  ghost predicate MainHolds(st: State) {
    && (st.gil.ByMain? <==> st.main.Dispatching? || st.main.Draining? || st.main.Returned?)
    && Sending(st) <= |st.slots| && Drained(st) <= |st.slots|
    && (st.main.Awaiting? || st.main.Got? || st.main.Unguarded? ==> st.main.n < |st.slots|)
    && (st.main.Got? ==> st.slots[st.main.n].promise == Some(st.main.value))
    && (st.allOkay <==> NoneFalse(st.slots, Drained(st)))
    && (ALL_OKAY in st.dict <==> st.main.Returned?)
    && (st.main.Returned? ==> st.dict[ALL_OKAY] == AllOkay(st.allOkay))
  }

  ghost predicate SlotHolds(st: State, request: Request, i: nat)
    requires i < |st.slots|
  {
    var slot := st.slots[i];
    var key := request.key;
    && (!slot.callback.Unsent? ==> !request.dispatch.Throws?)
    && (st.gil == ByCallback(i) <==> slot.callback.Entered? || slot.callback.Promised? || slot.callback.Stored?)
    && (slot.callback.Unsent? <==> i >= Sending(st))
    && (!slot.callback.Unsent? && !slot.callback.Settled? ==> request.dispatch.Sent?)
    && (slot.promise.Some? <==> slot.callback.Promised? || slot.callback.Stored? || slot.callback.Settled?)
    && slot.fulfilments == (if slot.promise.Some? then 1 else 0)
    && slot.owed == (if slot.promise.Some? && i >= Drained(st) then 1 else 0)
    && (i < Drained(st) ==> slot.promise.Some?)
    && (slot.promise.Some? ==> (slot.promise.value.ExceptionObject? <==> request.dispatch.Unrecognised?))
    && (slot.promise.Some? && request.dispatch.NotBytes? ==> slot.promise.value.False?)
    && (slot.callback.Promised? ==> (slot.promise.value.True? <==> slot.callback.response.Success?))
    && (slot.callback.Stored? ==> (slot.promise.value.True? <==> slot.callback.response.Success?))
    && (key in st.dict <==> slot.callback.Stored? || (slot.callback.Settled? && !request.dispatch.Unrecognised?))
    && (key in st.dict ==> st.dict[key] == if slot.promise.value.True? then Result else Exception)
    && slot.entryRefs == (match slot.callback
                          case Entered(_) => 1
                          case Promised(_) => 1
                          case Stored(_) => 2
                          case Settled => if request.dispatch.Unrecognised? then 0 else 1
                          case _ => 0)
  }

  ghost predicate Invariant(st: State, requests: seq<Request>) {
    && |st.slots| == |requests|
    && MainHolds(st)
    && (st.gil.ByCallback? ==> st.gil.i < |requests|)
    && (forall i :: 0 <= i < |requests| ==> SlotHolds(st, requests[i], i))
    && KeysKnown(st, requests)
    && (st.main.Unguarded? ==> st.main.n < |requests| && requests[st.main.n].dispatch.Throws?)
  }

  ghost predicate KeysKnown(st: State, requests: seq<Request>) {
    forall k :: k in st.dict ==> k == ALL_OKAY || exists i :: 0 <= i < |requests| && requests[i].key == k
  }

  lemma MainKeepsSlot(st: State, requests: seq<Request>, i: nat)
    requires WellFormed(requests) && |st.slots| == |requests| && MainHolds(st) && i < |requests|
    requires SlotHolds(st, requests[i], i)
    ensures SlotHolds(StepMain(st, requests), requests[i], i)
    ensures i < Drained(st) ==> StepMain(st, requests).slots[i].promise == st.slots[i].promise
  {
    if st.main.Dispatching? && st.main.n < |requests| && i != st.main.n {
      var n := st.main.n;
      assert requests[if i < n then i else n].key != requests[if i < n then n else i].key;
    }
  }

  lemma MainKeepsMain(st: State, requests: seq<Request>)
    requires WellFormed(requests) && Invariant(st, requests)
    ensures MainHolds(StepMain(st, requests))
  {
    var st' := StepMain(st, requests);
    forall i | 0 <= i < Drained(st) ensures st'.slots[i].promise == st.slots[i].promise {
      MainKeepsSlot(st, requests, i);
    }
    NoneFalseFrame(st.slots, st'.slots, Drained(st));
    if st.main.Got? && st'.main.Draining? {
      var n := st.main.n;
      assert st'.slots[n].promise == Some(st.main.value);
      assert NoneFalse(st'.slots, Drained(st')) <==> NoneFalse(st'.slots, Drained(st)) && !st.main.value.False?;
    }
  }

  lemma MainKeepsKeys(st: State, requests: seq<Request>)
    requires |st.slots| == |requests| && KeysKnown(st, requests)
    ensures KeysKnown(StepMain(st, requests), requests)
  {
  }

  lemma MainKeepsSlots(st: State, requests: seq<Request>)
    requires WellFormed(requests) && |st.slots| == |requests| && MainHolds(st)
    requires forall i :: 0 <= i < |requests| ==> SlotHolds(st, requests[i], i)
    ensures forall i :: 0 <= i < |requests| ==> SlotHolds(StepMain(st, requests), requests[i], i)
  {
    forall i | 0 <= i < |requests| ensures SlotHolds(StepMain(st, requests), requests[i], i) {
      MainKeepsSlot(st, requests, i);
    }
  }

  lemma StepMainKeeps(st: State, requests: seq<Request>)
    requires WellFormed(requests) && Invariant(st, requests)
    ensures Invariant(StepMain(st, requests), requests)
  {
    MainKeepsMain(st, requests);
    MainKeepsSlots(st, requests);
    MainKeepsKeys(st, requests);
  }

  lemma CallbackKeepsSlot(st: State, requests: seq<Request>, i: nat, response: Response, j: nat)
    requires WellFormed(requests) && |st.slots| == |requests| && MainHolds(st) && i < |requests| && j < |requests|
    requires SlotHolds(st, requests[i], i) && SlotHolds(st, requests[j], j)
    ensures SlotHolds(StepCallback(st, requests, i, response), requests[j], j)
  {
    if i != j {
      assert requests[if i < j then i else j].key != requests[if i < j then j else i].key;
    }
  }

  lemma CallbackKeepsMain(st: State, requests: seq<Request>, i: nat, response: Response)
    requires WellFormed(requests) && |st.slots| == |requests| && MainHolds(st) && i < |requests|
    requires SlotHolds(st, requests[i], i)
    ensures MainHolds(StepCallback(st, requests, i, response))
  {
    NoneFalseFrame(st.slots, StepCallback(st, requests, i, response).slots, Drained(st));
  }

  lemma StepCallbackKeeps(st: State, requests: seq<Request>, i: nat, response: Response)
    requires WellFormed(requests) && Invariant(st, requests) && i < |requests|
    ensures Invariant(StepCallback(st, requests, i, response), requests)
  {
    CallbackKeepsMain(st, requests, i, response);
    forall j | 0 <= j < |requests| ensures SlotHolds(StepCallback(st, requests, i, response), requests[j], j) {
      CallbackKeepsSlot(st, requests, i, response, j);
    }
  }

  lemma {:induction false} RunInvariant(requests: seq<Request>, actions: seq<Action>)
    requires WellFormed(requests)
    ensures Invariant(Run(requests, actions), requests)
    decreases |actions|
  {
    if actions != [] {
      RunInvariant(requests, Front(actions));
      match Last(actions) {
        case MainStep => StepMainKeeps(Run(requests, Front(actions)), requests);
        case CallbackStep(i, response) =>
          if i < |requests| { StepCallbackKeeps(Run(requests, Front(actions)), requests, i, response); }
      }
    }
  }

  /* What the call returns. */

  ghost predicate Succeeded(st: State, i: nat)
    requires i < |st.slots|
  {
    st.slots[i].promise == Some(True)
  }

  /** The entry of key i, if the operation is recognised. */
  ghost predicate Reported(st: State, requests: seq<Request>, i: nat)
    requires i < |st.slots| == |requests|
  {
    var key := requests[i].key;
    && (key in st.dict <==> !requests[i].dispatch.Unrecognised?)
    && (key in st.dict ==> st.dict[key] == if Succeeded(st, i) then Result else Exception)
  }

  /** When the main thread returns, under every interleaving: a key has its entry iff the operation is
      recognised, and the entry is a result iff its promise was fulfilled with True; nothing else is
      in the dict but all_okay, which is True iff no promise was fulfilled with False. */
  lemma ReturnedDictIsComplete(requests: seq<Request>, actions: seq<Action>)
    requires WellFormed(requests) && Run(requests, actions).main.Returned?
    ensures var st := Run(requests, actions);
            && (forall i :: 0 <= i < |requests| ==> Reported(st, requests, i))
            && ALL_OKAY in st.dict
            && st.dict[ALL_OKAY] == AllOkay(forall i :: 0 <= i < |requests| ==>
                                              Succeeded(st, i) || requests[i].dispatch.Unrecognised?)
            && (forall k :: k in st.dict ==> k == ALL_OKAY || exists i :: 0 <= i < |requests| && requests[i].key == k)
  {
    RunInvariant(requests, actions);
    var st := Run(requests, actions);
    forall i | 0 <= i < |requests|
      ensures Reported(st, requests, i)
      ensures st.slots[i].promise != Some(False) <==> Succeeded(st, i) || requests[i].dispatch.Unrecognised?
    {
      assert SlotHolds(st, requests[i], i);
      ReturnedIsSettled(st, requests, i);
    }
    assert st.allOkay <==> NoneFalse(st.slots, |st.slots|);
  }

  /* What the server answered. */

  /** The response with which key i's thread first got the GIL while the key was in flight. */
  function ServerAnswer(requests: seq<Request>, actions: seq<Action>, i: nat): Option<Response>
    requires i < |requests|
    decreases |actions|
  {
    if actions == [] then None
    else
      var earlier := ServerAnswer(requests, Front(actions), i);
      var st := Run(requests, Front(actions));
      match Last(actions)
      case CallbackStep(j, response) =>
        if earlier.None? && j == i && st.slots[i].callback.InFlight? && st.gil.Free? then Some(response) else earlier
      case MainStep => earlier
  }

  /** What the answer means for key i's thread, promise and entry. */
  ghost predicate AnswerHolds(slot: Slot, answer: Option<Response>) {
    match slot.callback
    case Unsent => answer.None?
    case InFlight => answer.None?
    case Entered(r) => answer == Some(r)
    case Promised(r) => answer == Some(r)
    case Stored(r) => answer == Some(r)
    case Settled => answer.Some? ==> slot.promise == Some(if answer.value.Success? then True else False)
  }

  lemma {:induction false} AnswerIsKept(requests: seq<Request>, actions: seq<Action>, i: nat)
    requires WellFormed(requests) && i < |requests|
    ensures var (slot, answer) := (Run(requests, actions).slots[i], ServerAnswer(requests, actions, i));
            && AnswerHolds(slot, answer)
            && (slot.callback.Settled? ==> (answer.Some? <==> requests[i].dispatch.Sent?))
    decreases |actions|
  {
    if actions != [] {
      AnswerIsKept(requests, Front(actions), i);
      RunInvariant(requests, Front(actions));
      var st := Run(requests, Front(actions));
      assert SlotHolds(st, requests[i], i);
      StepKeepsAnswer(st, requests, Last(actions), i);
    }
  }

  /** One step: the thread of key i goes its way, and only its first step brings an answer. */
  lemma StepKeepsAnswer(st: State, requests: seq<Request>, a: Action, i: nat)
    requires |st.slots| == |requests| && i < |requests| && MainHolds(st) && SlotHolds(st, requests[i], i)
    ensures var (slot, slot') := (st.slots[i], Do(st, requests, a).slots[i]);
            match slot.callback
            case Unsent =>
              || slot'.callback.Unsent? || (slot'.callback.InFlight? && requests[i].dispatch.Sent?)
              || (slot'.callback.Settled? && !requests[i].dispatch.Sent?)
            case InFlight =>
              slot'.callback == (if a.CallbackStep? && a.i == i && st.gil.Free? then Entered(a.response) else InFlight)
            case Entered(r) => slot'.callback == Entered(r) || slot'.callback == Promised(r)
            case Promised(r) => slot'.callback == Promised(r) || slot'.callback == Stored(r)
            case Stored(r) =>
              || slot'.callback == Stored(r)
              || (slot'.callback.Settled? && slot'.promise == slot.promise
                  && slot.promise == Some(if r.Success? then True else False) && requests[i].dispatch.Sent?)
            case Settled => slot'.callback.Settled? && slot'.promise == slot.promise
  {
  }

  /** When the main thread returns, each key is reported as its own response said: a key that was sent has
      an answer, and its promise and entry are those of a success iff the answer was one. */
  lemma EachKeyIsReportedAsAnswered(requests: seq<Request>, actions: seq<Action>, i: nat)
    requires WellFormed(requests) && i < |requests| && Run(requests, actions).main.Returned?
    ensures var (st, answer, key) := (Run(requests, actions), ServerAnswer(requests, actions, i), requests[i].key);
            match requests[i].dispatch
            case Sent =>
              && answer.Some? && key in st.dict
              && (answer == Some(Success) ==> st.slots[i].promise == Some(True) && st.dict[key] == Result)
              && (answer != Some(Success) ==> st.slots[i].promise == Some(False) && st.dict[key] == Exception)
            case NotBytes => st.slots[i].promise == Some(False) && key in st.dict && st.dict[key] == Exception
            case Unrecognised => st.slots[i].promise == Some(ExceptionObject) && key !in st.dict
            case Throws => false
  {
    RunInvariant(requests, actions);
    var st := Run(requests, actions);
    assert SlotHolds(st, requests[i], i);
    ReturnedIsSettled(st, requests, i);
    AnswerIsKept(requests, actions, i);
  }

  /** The GIL is what makes the late dict write safe: a promise that is fulfilled while its key's entry
      is missing belongs to a callback that holds the GIL (or to an operation that is not recognised). */
  lemma MissingEntryMeansGilIsHeld(requests: seq<Request>, actions: seq<Action>, i: nat)
    requires WellFormed(requests) && i < |requests|
    ensures var st := Run(requests, actions);
            st.slots[i].promise.Some? && requests[i].key !in st.dict ==>
              st.gil == ByCallback(i) || requests[i].dispatch.Unrecognised?
  {
    RunInvariant(requests, actions);
    assert SlotHolds(Run(requests, actions), requests[i], i);
  }

  /** A returning main thread holds the GIL, so no callback is halfway. */
  lemma ReturnedIsSettled(st: State, requests: seq<Request>, i: nat)
    requires Invariant(st, requests) && st.main.Returned? && i < |requests|
    ensures st.slots[i].callback.Settled?
  {
    assert SlotHolds(st, requests[i], i);
  }

  /** Every promise is fulfilled at most once in every run, and exactly once by the time the main
      thread returns; then no promise still owes a reference and the dict owns every entry alone. */
  lemma PromisesAndReferencesBalance(requests: seq<Request>, actions: seq<Action>, i: nat)
    requires WellFormed(requests) && i < |requests|
    ensures var st := Run(requests, actions); var slot := st.slots[i];
            && slot.fulfilments <= 1
            && (st.main.Returned? ==> slot.fulfilments == 1 && slot.owed == 0
                                      && slot.entryRefs == (if requests[i].dispatch.Unrecognised? then 0 else 1))
  {
    RunInvariant(requests, actions);
    var st := Run(requests, actions);
    assert SlotHolds(st, requests[i], i);
    if st.main.Returned? { ReturnedIsSettled(st, requests, i); }
  }

  /** An operation that is not recognised goes unreported: every run that returns has all_okay True and
      no entry for any key. */
  lemma UnrecognisedLooksFine(requests: seq<Request>, actions: seq<Action>)
    requires WellFormed(requests) && requests != [] && requests[0].dispatch.Unrecognised?
    requires Run(requests, actions).main.Returned?
    ensures Run(requests, actions).dict == map["all_okay" := AllOkay(true)]
  {
    ReturnedDictIsComplete(requests, actions);
    var dict := Run(requests, actions).dict;
    forall i | 0 <= i < |requests| ensures requests[i].key !in dict && requests[i].dispatch.Unrecognised? {
      assert Reported(Run(requests, actions), requests, i);
    }
    assert dict.Keys == {ALL_OKAY};
  }

  /** No run leaves the main thread in the interpreter without the GIL exactly if no request throws. */
  lemma GilIsLostExactlyByAThrow(requests: seq<Request>)
    requires WellFormed(requests)
    ensures (forall actions :: !Run(requests, actions).main.Unguarded?)
            <==> forall i :: 0 <= i < |requests| ==> !requests[i].dispatch.Throws?
  {
    if i :| 0 <= i < |requests| && requests[i].dispatch.Throws? {
      var actions := LosesGil(requests, i);
      assert Run(requests, actions).main.Unguarded?;
    } else {
      forall actions ensures !Run(requests, actions).main.Unguarded? {
        UnguardedMeansAThrow(requests, actions);
      }
    }
  }

  lemma UnguardedMeansAThrow(requests: seq<Request>, actions: seq<Action>)
    requires WellFormed(requests)
    ensures Run(requests, actions).main.Unguarded? ==> exists i :: 0 <= i < |requests| && requests[i].dispatch.Throws?
  {
    RunInvariant(requests, actions);
  }

  lemma LosesGil(requests: seq<Request>, i: nat) returns (actions: seq<Action>)
    requires i < |requests| && requests[i].dispatch.Throws?
    ensures Run(requests, actions).main.Unguarded?
  {
    var n := FirstThrow(requests, i);
    actions := ReachesDispatch(requests, n);
    assert Front(actions + [MainStep]) == actions;
    actions := actions + [MainStep];
  }

  lemma {:induction false} FirstThrow(requests: seq<Request>, i: nat) returns (n: nat)
    requires i < |requests| && requests[i].dispatch.Throws?
    ensures n <= i && requests[n].dispatch.Throws? && forall j :: 0 <= j < n ==> !requests[j].dispatch.Throws?
  {
    n := 0;
    while !requests[n].dispatch.Throws?
      invariant n <= i && forall j :: 0 <= j < n ==> !requests[j].dispatch.Throws?
      decreases i - n
    {
      n := n + 1;
    }
  }

  /** The main thread alone gets past every key whose request does not throw. */
  lemma {:induction false} ReachesDispatch(requests: seq<Request>, n: nat) returns (actions: seq<Action>)
    requires n <= |requests| && forall j :: 0 <= j < n ==> !requests[j].dispatch.Throws?
    ensures Run(requests, actions).main == Dispatching(n) && Run(requests, actions).gil.ByMain?
  {
    if n == 0 { return []; }
    actions := ReachesDispatch(requests, n - 1);
    assert Front(actions + [MainStep]) == actions;
    actions := actions + [MainStep];
    if requests[n - 1].dispatch.Sent? {
      assert Front(actions + [MainStep]) == actions;
      actions := actions + [MainStep];
    }
  }

  /** The waiter can have its value while the entry is still missing: only the GIL keeps it from
      returning then. */
  lemma WaiterMayWakeBeforeTheEntry()
    ensures exists requests: seq<Request>, actions: seq<Action> ::
              var st := Run(requests, actions);
              WellFormed(requests) && |requests| == 1 && st.main == Got(0, True) && requests[0].key !in st.dict
  {
    var requests := [Request("k", Sent)];
    var s1 := StepMain(Initial(requests), requests);
    var s2 := StepMain(s1, requests);
    assert s2.main == Dispatching(1) && s2.gil.ByMain? && s2.slots[0].callback.InFlight?;
    var s3 := StepMain(s2, requests);
    var s4 := StepMain(s3, requests);
    assert s4.main == Awaiting(0) && s4.gil.Free? && s4.slots[0] == s2.slots[0] && s4.dict == map[];
    var st := Initial(requests);
    assert Stepped(st, requests, 1) == s1;
    assert Stepped(st, requests, 2) == s2;
    assert Stepped(st, requests, 3) == s3;
    assert Stepped(st, requests, 4) == s4;
    var a := MainSteps(requests, 4);
    var enter := CallbackStep(0, Success);
    var s5 := Do(s4, requests, enter);
    var s6 := Do(s5, requests, enter);
    assert s6.slots[0].promise == Some(True) && s6.main == Awaiting(0) && s6.dict == map[];
    assert Front(a + [enter]) == a && Run(requests, a + [enter]) == s5;
    assert Front(a + [enter] + [enter]) == a + [enter] && Run(requests, a + [enter] + [enter]) == s6;
    assert Front(a + [enter] + [enter] + [MainStep]) == a + [enter] + [enter];
    assert Run(requests, a + [enter] + [enter] + [MainStep]) == Do(s6, requests, MainStep);
  }

  lemma MainSteps(requests: seq<Request>, n: nat) returns (actions: seq<Action>)
    ensures Run(requests, actions) == Stepped(Initial(requests), requests, n)
  {
    actions := [];
    for k := 0 to n
      invariant Run(requests, actions) == Stepped(Initial(requests), requests, k)
    {
      assert Front(actions + [MainStep]) == actions;
      actions := actions + [MainStep];
    }
  }

  ghost function Stepped(st: State, requests: seq<Request>, n: nat): (st': State)
    requires |st.slots| == |requests|
    ensures |st'.slots| == |requests|
  {
    if n == 0 then st else StepMain(Stepped(st, requests, n - 1), requests)
  }

  /* The call always returns. */

  /** Steps a callback's thread still has to take. */
  function CallbackWork(slot: Slot): nat {
    match slot.callback
    case Unsent => 4
    case InFlight => 4
    case Entered(_) => 3
    case Promised(_) => 2
    case Stored(_) => 1
    case Settled => 0
  }

  function SlotsWork(slots: seq<Slot>): nat
    decreases |slots|
  {
    if slots == [] then 0 else SlotsWork(Front(slots)) + CallbackWork(Last(slots))
  }

  /** Steps the main thread still has to take. */
  function MainWork(st: State): int {
    var n := |st.slots|;
    match st.main
    case Dispatching(k) => 2 * (n - k) + 3 * n + 2
    case Executing(k) => 2 * (n - k) + 3 * n + 1
    case Draining(k) => 3 * (n - k) + 1
    case Awaiting(k) => 3 * (n - k)
    case Got(k, _) => 3 * (n - k) - 1
    case Returned => 0
    case Unguarded(_) => 0
  }

  function Work(st: State): int {
    MainWork(st) + SlotsWork(st.slots)
  }

  lemma {:induction false} SlotsWorkUpdate(slots: seq<Slot>, i: nat, slot: Slot)
    requires i < |slots|
    ensures SlotsWork(slots[i := slot]) == SlotsWork(slots) - CallbackWork(slots[i]) + CallbackWork(slot)
    decreases |slots|
  {
    var slots' := slots[i := slot];
    if i == |slots| - 1 {
      assert Front(slots') == Front(slots);
    } else {
      SlotsWorkUpdate(Front(slots), i, slot);
      assert Front(slots') == Front(slots)[i := slot];
    }
  }

  lemma MainStepWorks(st: State, requests: seq<Request>)
    requires |st.slots| == |requests| && MainHolds(st) && StepMain(st, requests) != st
    requires forall i :: Sending(st) <= i < |requests| ==> st.slots[i].callback.Unsent?
    ensures Work(StepMain(st, requests)) < Work(st)
  {
    if st.main.Dispatching? && st.main.n < |requests| {
      DispatchWorks(st, requests, st.main.n);
    } else if st.main.Got? {
      SlotsWorkUpdate(st.slots, st.main.n, StepMain(st, requests).slots[st.main.n]);
    }
  }

  lemma DispatchWorks(st: State, requests: seq<Request>, n: nat)
    requires |st.slots| == |requests| && st.main == Dispatching(n) && n < |requests| && st.slots[n].callback.Unsent?
    ensures Work(StepMain(st, requests)) < Work(st)
  {
    var st' := StepMain(st, requests);
    SlotsWorkUpdate(st.slots, n, st'.slots[n]);
    assert st'.slots == st.slots[n := st'.slots[n]];
    assert CallbackWork(st'.slots[n]) <= CallbackWork(st.slots[n]);
  }

  lemma CallbackStepWorks(st: State, requests: seq<Request>, i: nat, response: Response)
    requires |st.slots| == |requests| && i < |requests| && StepCallback(st, requests, i, response) != st
    ensures Work(StepCallback(st, requests, i, response)) < Work(st)
  {
    var st' := StepCallback(st, requests, i, response);
    SlotsWorkUpdate(st.slots, i, st'.slots[i]);
    assert st'.main == st.main && st'.slots == st.slots[i := st'.slots[i]];
    assert CallbackWork(st'.slots[i]) < CallbackWork(st.slots[i]);
  }

  /** Every step that changes anything takes some of the work left, which is never negative: whatever
      the interleaving, at most 9n + 2 steps change anything. */
  lemma StepsAreBounded(requests: seq<Request>, actions: seq<Action>, a: Action)
    requires WellFormed(requests)
    ensures var st := Run(requests, actions); var st' := Do(st, requests, a);
            Work(st) >= 0 && (st' != st ==> Work(st') < Work(st))
    ensures Work(Initial(requests)) == 9 * |requests| + 2
  {
    InitialWork(Initial(requests).slots);
    RunInvariant(requests, actions);
    var st := Run(requests, actions);
    if Do(st, requests, a) != st {
      match a {
        case MainStep =>
          forall i | Sending(st) <= i < |requests| ensures st.slots[i].callback.Unsent? {
            assert SlotHolds(st, requests[i], i);
          }
          MainStepWorks(st, requests);
        case CallbackStep(i, response) => CallbackStepWorks(st, requests, i, response);
      }
    }
  }

  lemma {:induction false} InitialWork(slots: seq<Slot>)
    requires forall i :: 0 <= i < |slots| ==> slots[i].callback.Unsent?
    ensures SlotsWork(slots) == 4 * |slots|
    decreases |slots|
  {
    if slots != [] {
      InitialWork(Front(slots));
    }
  }

  /** No deadlock: until the main thread has returned or a request threw, some thread can move, given that
      every request sent is answered.  With the bound on steps, every fair run returns. */
  lemma SomeThreadCanMove(requests: seq<Request>, actions: seq<Action>) returns (a: Action)
    requires WellFormed(requests)
    requires !Run(requests, actions).main.Returned? && !Run(requests, actions).main.Unguarded?
    ensures Do(Run(requests, actions), requests, a) != Run(requests, actions)
  {
    RunInvariant(requests, actions);
    var st := Run(requests, actions);
    if st.gil.ByCallback? {
      assert SlotHolds(st, requests[st.gil.i], st.gil.i);
      return CallbackStep(st.gil.i, Success);
    }
    if st.main.Awaiting? {
      assert SlotHolds(st, requests[st.main.n], st.main.n);
      if st.slots[st.main.n].promise.None? { return CallbackStep(st.main.n, Success); }
    }
    return MainStep;
  }
}
