# Couchbase Python client: shared data structures, multi-operations and streams

A Dafny model of the parts of the Couchbase Python client whose correctness depends on interleaving:
queues and sets that any number of clients change at once inside one server document, the
multi-operation whose responses arrive on other threads, and the streamed query; with them the deadline
loop they share, the bidirectional option mapping and the conversion of a macro's CAS. `dafny verify
dfyconfig.toml` checks all of it.

## How the model is laid out

* `Sequences` – sequence vocabulary. `Server` – one document and the atomic requests it serves.
* `Protocol` – every data-structure call as a small state machine (its program counter, what it read, the
  CAS it holds), any number of them over one document. A run is any sequence of actions; an action starts
  a call or lets one call exchange one request. `Linearizability`, `Fifo`, `SetSemantics`, `Progress`
  and `Undisturbed` are theorems about all runs.
* `Timing` – the deadline, the growing interval and the sleeps, over an arbitrary monotone clock.
* `Datastructures` – the blocking methods with their loops, over a collection on which arbitrary other
  calls act between any two requests. Each method is proved to make exactly one call of `Protocol` and to
  run it to its end, so every theorem about runs is a theorem about it. The asynchronous `pop` and `remove`
  send the same requests in the same order and compute the same sleeps, with awaits at the places where
  other calls may act.
* `Reach` – runs built to reach a given state. `SharedIterator` – one asynchronous iterator object on which
  any number of tasks call `__anext__`; `AsyncIteration` – its methods, over the shared document. `Cluster` –
  `wait_until_ready` and the state of a diagnostics report.
* `MultiOp` – main thread, one response thread per key, interpreter lock (GIL), promises, shared dict and
  reference counts as a step system. `BinaryResponse` – one response in detail. `MultiCounter` – the options
  that are built before, and the result object made after. `MultiCall` – the main thread's own program,
  joined to both ends.
* `Streaming`, `Mapping`, `MacroCas` – the streamed query, the option mapping, the byte-reversed CAS.

Runs start without a document. Nothing is lost by that: every array is the contents of some run of pushes
(`Reach.EveryArrayIsReached`), and of adds if it has no duplicates (`Reach.EveryDistinctArrayIsReached`).

## What the environment is assumed to do

* Each document or subdocument operation is atomic and its outcome reaches the caller.
* Each successful mutation installs a CAS that is not zero and was never used before.
* A mutation with a nonzero CAS applies iff that is the current CAS; otherwise nothing changes and the
  answer is a CAS mismatch. On a missing document it may be a mismatch or "document not found".
* An index an array does not have is "path not found"; a lookup of a missing `[-1]` may also answer null.
  `array_addunique` appends, or answers "path exists".
* The document, where it exists, holds a JSON array; two JSON values are equal iff they are the same value.
* The clock is monotone, a sleep lasts at least as long as asked, and milliseconds are reals.
* Every request that a multi-operation sends is answered, in any order and at any time.
* A counter operation's `execute` raises no exception (see below for what happens otherwise).
* Tasks of one event loop switch only where the code awaits. The `asyncio.sleep(0)` after a value is taken
  does not touch the iterator object, so the order of a pass is the order in which its values are taken.
* Keys of a multi-operation are non-empty and differ from `all_okay`; their options are dicts.

## What came out that a reader of the code might not expect

* A timed-out `remove` is in no history and deleted nothing, but it may have created the empty document, in
  the wrapper around its read. For every run before it and every value, it is sure to have made no mutation
  of any kind, in all continuations in which no clear begins, exactly if the document exists when it is
  called and no clear is under way (`Progress.TimedOutRemoveIsSilent`). If clears may begin, it is never
  sure (`Progress.ClearsBreakSilence`). A timed-out `pop` never wrote anything.
* An asynchronous iterator object that several tasks share can mix two reads in one pass: both tasks find
  no pass open, both read, and the second to finish replaces the queue of the first. It happens for every
  array and every value pushed between the two reads (`AsyncIteration.PassMixesTwoReads`). An open pass is
  sure to return exactly its one snapshot iff it is whole so far and no task awaits a read
  (`AsyncIteration.SharedPassIsWholeExactly`), and every pass does if no two reads are ever awaited at once.
* `pop` on a missing document raises `DocumentNotFoundException`, because it is not wrapped; the proofs
  treat that as a report that the queue is empty, which it is at that step.
* An operation that is not recognised puts an exception object in every promise and nothing in the dict:
  `all_okay` is True and no key is in `results` or `exceptions` (`MultiOp.UnrecognisedLooksFine`).
* An exception that leaves `execute` skips the statement that takes the GIL again, so the handlers around it
  and all that follows run in the interpreter without the GIL. The model stops there (as a side remark,
  `MultiOp.GilIsLostExactlyByAThrow` says when a run gets there), and the theorems about calls that return
  do not speak of such runs.
* A promise is fulfilled before its entry is written, so a waiter can have its value while the entry is
  missing (`MultiOp.WaiterMayWakeBeforeTheEntry`); only the GIL keeps the call from returning then.
* When a result cannot be built and an errback was given, neither handler is called and the exception
  object is leaked; `BinaryResponse.Interpreter.CreateResult` gives the exact condition for balanced
  references.
* The counter builder refuses a list of keys that names a key twice if that key has a delta or initial value
  of its own, since the first visit overwrites it with a plain integer
  (`MultiCounter.RepeatedKeyIsRefused`). Listing such a key once, or listing twice a key without numbers of
  its own, is accepted.
* Two timeouts in a row make the row iterator raise; it never ends early as if the result were complete.
  A `next()` after the end yields None instead of stopping again.
* The docstring of `CouchbaseSet.add` says that it returns whether the item already existed; the code
  returns True when the item was added, and the model follows the code.

## Model

| member | source | states |
|---|---|---|
| `Server.ServeFollows` | couchbase/datastructures.py:396-415 | Whatever is requested, a request makes at most one write, in its caller's name; without one the document is untouched; a write that leaves a document gives it a CAS that is not zero and was never used; no version is forgotten |
| `Protocol.RunInvariant` | couchbase/datastructures.py:396-625 | Every reachable state of any number of interleaved calls keeps the snapshot, write, failure and log invariants, and the log replays to the document |
| `Protocol.ExchangeTakesEffect` | couchbase/datastructures.py:417-605 | A step leaves log and contents alone, or adds exactly one entry to the log, the sequential operation that turns the contents before the step into those after it |
| `Protocol.GuardedPopTakesEffect` | couchbase/datastructures.py:581-588 | The guarded remove of the last element acts like one atomic pop of the value read earlier, or changes nothing |
| `Protocol.GuardedRemoveTakesEffect` | couchbase/datastructures.py:447-453 | The guarded remove at the index found earlier acts like one atomic removal of the value's first occurrence |
| `Protocol.MismatchHasWitness` | couchbase/datastructures.py:452-453 | At a CAS mismatch some other call's write lies after this attempt's read |
| `Protocol.NoPathIsNeverMissed` | couchbase/datastructures.py:449-451 | remove's guarded mutation never meets "path not found": an accepted CAS means the index is still there |
| `Linearizability.EveryRunIsLinearized` | couchbase/datastructures.py:396-625 | In every run the log is a legal sequential history ending in the document's contents and holds exactly once, with the outcome it reported, each completed call but those that timed out or, other than a pop, met no document |
| `Linearizability.LogRespectsRealTime` | couchbase/datastructures.py:396-625 | A call that was done before another began precedes it in the history |
| `Linearizability.UnloggedCallsHaveNoEffect` | couchbase/datastructures.py:465-466 | Calls that are unfinished, timed out or gave up are in no history |
| `Linearizability.CasNamesContents` | couchbase/result.py:56-61 | No ABA: however many actions follow a read, clears and re-creations included, the document has the CAS read again only with the contents read |
| `Fifo.EveryStepIsFifo` | couchbase/datastructures.py:544-625 | Forward simulation: each action of each run is invisible, or one operation of an atomic first-in first-out queue with the outcome that is reported |
| `Fifo.SequentialIsFifo` | couchbase/datastructures.py:554-555 | Prepending and removing at the end of an array is enqueueing and dequeueing on its reversal, and "empty" is reported only of an empty queue |
| `Fifo.NothingIsLostOrDuplicated` | couchbase/datastructures.py:544-625 | In every run, what was pushed, in order, equals what left (popped or cleared) followed by what is queued |
| `Fifo.PopDeletesWhatItReturns` | couchbase/datastructures.py:577-605 | A pop's final step takes off exactly the front it returns; "empty" is raised only while the queue is empty; no other step of a pop writes |
| `SetSemantics.SequentialIsSet` | couchbase/datastructures.py:396-484 | On a duplicate-free array each operation keeps it duplicate-free and does to its elements what an atomic set does |
| `SetSemantics.EveryRunIsASet` | couchbase/datastructures.py:396-484 | Every run of set operations keeps the array duplicate-free and is a history of an atomic set that ends in its elements |
| `SetSemantics.AddAndRemoveTouchOneValue` | couchbase/datastructures.py:410-453 | add answers True iff the value was absent at its effective step and adds only it; remove deletes only its value, absent afterwards; contains answers membership |
| `SetSemantics.RemoveTouchesNothingElse` | couchbase/datastructures.py:438-468 | While a remove is still trying, no step of it changes the contents |
| `Progress.MismatchIsCausedByAnother` | couchbase/datastructures.py:447-453 | Between the read and the write of a failed attempt only other calls wrote, and at least one did |
| `Progress.FailuresAreBounded` | couchbase/datastructures.py:438-468 | The failed attempts of one call never outnumber the mutations that others made since it began |
| `Progress.OthersWritesCounts` | couchbase/datastructures.py:438-468 | The bound is the number of writes that others made from that place on |
| `Progress.RetryIsCausedByAnother` | couchbase/datastructures.py:447-466 | In every run, a call that pauses before a retry, or that timed out, met a CAS mismatch, and since its last attempt's read others wrote and it did not |
| `Progress.BegunIsTheInvocation` | couchbase/datastructures.py:433-438 | The bound above counts only writes after the call's own invocation |
| `Progress.TimeoutIsUnambiguous` | couchbase/datastructures.py:465-466 | In every run, a timed-out call is in no history, and wrote nothing (pop) or nothing but an empty document (remove) |
| `Progress.TimedOutRemoveIsSilent` | couchbase/datastructures.py:438-466 | For every run before it and every value: a remove that times out is sure to have made no mutation, in all continuations in which no clear begins, iff the document exists when it is called and no clear is under way; the same for the continuations in which only adds begin |
| `Progress.ClearsBreakSilence` | couchbase/datastructures.py:438-466 | After every run, if clears may begin, a remove can time out having created the document |
| `Undisturbed.UndisturbedPop` | couchbase/datastructures.py:579-588 | From every reachable state: an attempt of pop on a non-empty array, with no write of others up to its guarded remove, ends after two requests with the last element, which is removed, whatever the environment chooses and others read |
| `Undisturbed.UndisturbedRemove` | couchbase/datastructures.py:438-453 | Likewise an attempt of remove on an array that holds the value deletes its first occurrence |
| `Undisturbed.UndisturbedCall` | couchbase/datastructures.py:396-625 | From every reachable state, document or none: every operation that nobody writes in between ends within three requests with the answer and the contents it promises, spelled out per operation |
| `Undisturbed.GivesUpAfterMisses` | couchbase/logic/wrappers.py:147-165 | If the document is gone at every look, pop gives up after one, contains after four and the others after two |
| `Undisturbed.GivesUpOnlyWithoutDocument` | couchbase/logic/wrappers.py:147-165 | In every run, a call gives up for want of a document only at a step at which there is none |
| `Reach.CreatesAndTimesOut` | couchbase/logic/wrappers.py:147-165 | From every reachable state without a document, a remove that is about to read can create the document, lose a race and time out, with nothing but adds beginning meanwhile |
| `Reach.EveryArrayIsReached` | couchbase/datastructures.py:544-555 | Every array is the contents of some run of pushes |
| `Reach.EveryDistinctArrayIsReached` | couchbase/datastructures.py:396-415 | Every duplicate-free array is the contents of some run of adds |
| `Timing.AttemptsWithinBound` | couchbase/datastructures.py:592-603 | A loop whose last sleep began before the deadline has made at most 2 + ceil(max(0, T - 550) / 1000) attempts |
| `Timing.AttemptsReachBound` | couchbase/datastructures.py:592-603 | and exactly that many when only its sleeps take time |
| `Timing.BoundByTimeout` | couchbase/datastructures.py:592-603 | The bound is 1 without a timeout, 2 up to 550 ms, and one more for every second begun after that |
| `Timing.BackOff` | couchbase/datastructures.py:592-603 | Sleeps exactly 550 ms the first time and 1000 ms every other, cut to the time left; gives up only at the deadline; no sleep runs past it, and their sum stays within the timeout for every clock trace |
| `Timing.FittingSleepIsBounded` | couchbase/datastructures.py:592-603 | So every requested sleep is positive, at most a second, and ends by the deadline |
| `Timing.DefaultBound` | couchbase/datastructures.py:569-572 | The default of 10 seconds means at most 12 attempts |
| `Datastructures.Collection.Send` | couchbase/datastructures.py:582-587 | One request of one call, after arbitrary actions of others, is one step of a run |
| `Datastructures.Structure.Push` | couchbase/datastructures.py:544-555 | push makes exactly one call, a push of the protocol, whatever others do meanwhile, and ends only as the source's does |
| `Datastructures.Structure.Add` | couchbase/datastructures.py:396-415 | add is one add call of the protocol and answers a truth value unless the document keeps disappearing |
| `Datastructures.Structure.Clear` | couchbase/datastructures.py:619-625 | clear is one clear call of the protocol and always returns |
| `Datastructures.Structure.Get` | couchbase/logic/wrappers.py:147-165 | The wrapped read creates a missing document once, reads again, and fails only if the document is missing then too |
| `Datastructures.Structure.GetAll` | couchbase/datastructures.py:537-542 | Reading everything is one read call of the protocol |
| `Datastructures.Structure.Contains` | couchbase/datastructures.py:470-484 | contains, wrapped around a wrapped read, is one membership call of the protocol |
| `Datastructures.Structure.Pop` | couchbase/datastructures.py:557-605 | pop makes exactly one call, a pop of the protocol; it sleeps, or gives up, once for each CAS mismatch that the call met; it makes at most the bounded number of attempts for its timeout, 10 s by default, and times out only past the deadline, at exactly the bound if only sleeps take time |
| `Datastructures.Structure.AttemptPop` | couchbase/datastructures.py:579-590 | One pass of pop ends the call with a value or an empty report, or leaves it at a CAS mismatch, which the call records |
| `Datastructures.Structure.Remove` | couchbase/datastructures.py:417-468 | remove makes exactly one call, a remove of the protocol, with the same account of its retries and the same bounds |
| `Datastructures.Structure.AttemptRemove` | couchbase/datastructures.py:439-455 | One pass deletes the value, finds it absent, or leaves the call at a CAS mismatch, which the call records |
| `Datastructures.Structure.RetriesAreBounded` | couchbase/datastructures.py:438-468 | The sleeps of a pop or remove, and its giving up, are at most as many as others' writes since it began |
| `Datastructures.Structure.FindFirst` | couchbase/datastructures.py:441-445 | The search returns the first index that holds the value, or -1 |
| `Sequences.IndexOf` | couchbase/datastructures.py:169-186 | The index holds the value, no earlier one does, and it is negative iff the value is absent |
| `SharedIterator.PassIsWholeExactly` | acouchbase/datastructures.py:649-665 | Whatever the tasks sharing an iterator object do next, its open pass returns exactly its snapshot, iff it is whole so far and no task awaits a read |
| `SharedIterator.LateReadMixes` | acouchbase/datastructures.py:654-659 | A read that ends in an open pass leaves it whole iff it saw exactly what was still queued |
| `SharedIterator.TwoReadersMix` | acouchbase/datastructures.py:653-659 | For all non-empty reads: two tasks that both began before either had read reach an open pass holding a value of each read, whole iff the second read is what the first had left |
| `AsyncIteration.SharedPassIsWholeExactly` | acouchbase/datastructures.py:649-665 | The same equivalence over the shared document: for every history of the document, every state of the object, and all that clients and tasks may do next, each awaited read seeing what the document holds at some later point |
| `AsyncIteration.PassMixesTwoReads` | acouchbase/datastructures.py:649-665 | For every non-empty array and every value, a run of clients in which two awaited reads see the array before and after a push of the value, and the pass they share returns a value of each and is not whole |
| `SharedIterator.OpenedPassHolds` | acouchbase/datastructures.py:653-659 | A pass begins whole at the step that installs its snapshot and takes from it |
| `SharedIterator.OneReaderKeepsPassesWhole` | acouchbase/datastructures.py:649-665 | In every run in which no two reads are awaited at once, every pass, open or ended, returns exactly its snapshot |
| `AsyncIteration.AsyncQueue.Begin` | acouchbase/datastructures.py:652-653 | The part of a call before its await: in an open pass the whole call, else the task starts to await |
| `AsyncIteration.AsyncQueue.Finish` | acouchbase/datastructures.py:654-665 | One read, whose result is what the document held at one point of the history, is installed and its first value taken, whatever the object holds by then; it raises only if that read met no document |
| `AsyncIteration.AsyncQueue.ANext` | acouchbase/datastructures.py:652-665 | With other tasks running at its await, a call is exactly its events in the object's run and answers what the last of them takes; every pass began with what one read saw |
| `AsyncIteration.AsyncQueue.SurvivesOthers` | acouchbase/datastructures.py:223-236 | Whatever other clients do to the document leaves the object, and the reads its passes began with, intact |
| `AsyncIteration.AsyncQueue.ForEach` | acouchbase/datastructures.py:649-665 | A whole loop by the only task on the object, other clients acting at every step, makes one read and lists exactly what it saw at one point of the history, or raises before listing anything |
| `AsyncIteration.FinishedReadIsLogged` | acouchbase/datastructures.py:653-656 | What a finished read returned is what the document held at its place in the history |
| `Cluster.State` | couchbase/result.py:173-190 | The counting loops answer online iff no endpoint of any service is unconnected, offline iff there are endpoints and none is connected, degraded otherwise |
| `Cluster.StateIsUnique` | couchbase/result.py:186-190 | A report is in one state only |
| `Cluster.Cluster.WaitUntilReady` | couchbase/cluster.py:285-312 | It returns iff its last judged report, and none before, shows the desired state; a timeout means none did and the deadline passed; attempts and sleeps obey the same bounds |
| `Cluster.Cluster.Observe` | couchbase/cluster.py:292-298 | A round judges its second report iff the first misses a service, and pings exactly then |
| `MultiOp.RunInvariant` | src/binary_ops.cxx:645-735 | Every interleaving of the main thread and the response threads keeps the GIL, promise, dict and reference invariants; the main thread holds the GIL wherever it must, unless a request threw |
| `MultiOp.ReturnedDictIsComplete` | src/binary_ops.cxx:655-735 | When the call returns, under every interleaving, each key has its entry iff the operation is recognised, a result iff its promise got True; nothing else is there but all_okay, which is True iff no promise got False |
| `MultiOp.EachKeyIsReportedAsAnswered` | src/binary_ops.cxx:101-154 | In every returning run each key that was sent was answered, and its promise is True and its entry a result iff the server's own answer to that key was a success; a value that is no bytes object is an exception |
| `MultiOp.AnswerIsKept` | src/binary_ops.cxx:206-211 | From the moment the thread of a key first gets the GIL, what it carries and settles is the response it came with |
| `MultiOp.MissingEntryMeansGilIsHeld` | src/binary_ops.cxx:93-154 | A fulfilled promise without an entry belongs to a callback that holds the GIL, or to an operation that is not recognised |
| `MultiOp.PromisesAndReferencesBalance` | src/binary_ops.cxx:101-178 | Each promise is fulfilled at most once, exactly once by the return; then every True or False was released and the dict alone owns each entry |
| `MultiOp.UnrecognisedLooksFine` | src/binary_ops.cxx:702-708 | Every returning run of an operation that is not recognised has all_okay True and no entry |
| `MultiOp.WaiterMayWakeBeforeTheEntry` | src/binary_ops.cxx:135-144 | A run in which the waiter has its value while the entry is missing |
| `MultiOp.StepsAreBounded` | src/binary_ops.cxx:718-727 | Each step that changes anything uses up a measure that starts at 9n + 2, so no interleaving of n keys goes on for ever |
| `MultiOp.SomeThreadCanMove` | src/binary_ops.cxx:718-727 | No deadlock: until the call returned or a request threw, some thread can move |
| `BinaryResponse.Interpreter.CreateResult` | src/binary_ops.cxx:84-194 | Every branch fulfils the promise or calls one handler, never twice; references balance iff no half-built result is dropped and no failed build meets an errback |
| `BinaryResponse.Interpreter.Deliver` | src/binary_ops.cxx:106-114 | The promise's value carries one reference for its waiter, and the entry ends up owned by the dict alone |
| `MultiCounter.GetMultiCounterOpArgs` | couchbase/collection.py:2849-2872 | Options are built iff they are accepted, for each distinct key in order of first mention |
| `MultiCounter.SentOptions` | couchbase/collection.py:2849-2869 | Option by option: a key's own value comes before the global one, and that before delta 1 and initial 0; both go out as plain integers, and nothing else is added |
| `MultiCounter.AcceptedOptions` | couchbase/logic/collection.py:445-465 | Exactly what is accepted: a global delta or initial of the proper class or falsy, a key's own of the proper class or None, and no number of its own for a key listed twice |
| `MultiCounter.FirstOccurrencesKeepOrder` | couchbase/collection.py:2858-2860 | Keys are sent in the order in which they are first listed |
| `MultiCounter.PassedIsAccepted` | couchbase/logic/collection.py:445-465 | If validation passes at every visit, every key's options are valid and no repeated key has numbers of its own |
| `MultiCounter.FailedIsRejected` | couchbase/collection.py:2862-2868 | Conversely, a visit that fails means the options are not acceptable |
| `MultiCounter.RepeatedKeyIsRefused` | couchbase/collection.py:2860-2869 | For every key and delta: listed once accepted, listed twice refused |
| `MultiCounter.FirstOccurrencesAreDistinct` | couchbase/collection.py:2858-2860 | The built dict has each input key once and no other |
| `MultiCounter.MakeMultiResult` | couchbase/result.py:773-788 | The constructor raises iff exceptions are not to be returned and some entry is one; otherwise it keeps every entry and takes all_okay out, for every iteration order |
| `MultiCounter.Select` | couchbase/result.py:797-819 | results and exceptions each pick exactly the entries of their kind |
| `MultiCounter.OutcomeIsAPartition` | couchbase/result.py:779-819 | After every returning run, results and exceptions partition the keys of a recognised operation, and all_ok holds iff there are no exceptions |
| `MultiCall.MultiCall.Handle` | src/binary_ops.cxx:645-735 | If no request throws, the main thread's program terminates under arbitrary interleaving and returns the dict of some complete run, in which every answer is the server's if its answers are settled |
| `MultiCall.IncrementMulti` | couchbase/collection.py:2952-2968 | End to end: refused iff the options are not accepted; else each distinct key was answered, by the server's settled answers if it has them; it raises iff some answer was no success and exceptions are not returned; else exceptions are exactly the keys so answered, results all other keys, and all_ok says that every answer was a success |
| `MultiCall.ExceptionsAreFailures` | src/binary_ops.cxx:718-733 | The entries that are not results belong to exactly the keys that the server did not answer with success, or never saw |
| `Streaming.CreateAnalyticsResult` | src/analytics.cxx:301-328 | The callback puts the rows in order, then the marker and the metadata, or an error in their place; a failed response puts only its error |
| `Streaming.StreamedResult.Next` | src/result.hxx:40-62 | A get, however late the puts are, gives up or takes the oldest item; nothing is lost, duplicated or reordered |
| `Streaming.AnalyticsRequest.Iter` | couchbase/analytics.py:61-68 | The query is submitted on the first call only; after the end it is refused |
| `Streaming.AnalyticsRequest.GetMetadata` | couchbase/analytics.py:49-59 | One get: metadata if it is what was there, the query's error if that was, and an internal error else |
| `Streaming.AnalyticsRequest.Next` | couchbase/analytics.py:70-100 | One late get is retried; a row is yielded iff a row was met, the end is the marker or a second timeout, and a call after the end yields None and touches nothing |
| `Streaming.AnalyticsRequest.NextItems` | couchbase/analytics.py:70-100 | With n rows taken, a call meets item n of what was produced: it yields row n, or ends with the metadata exactly after the last row, or raises |
| `Streaming.AnalyticsRequest.Execute` | couchbase/analytics.py:46-47 | However puts and gets interleave and whatever times out: it lists as many rows as there are, the i-th being the i-th deserialized, metadata read after the marker and the query submitted once, iff no get timed out twice running or after the marker; otherwise it raises, having yielded the first of the rows in order, and for a failed response none |
| `Streaming.PatientSplit` | couchbase/analytics.py:74-78 | Whether gets were late twice running is decided call by call |
| `Mapping.BidirectionalTransform.constructor` | couchbase/_utils.py:285-297 | Missing keys are set in the two ParamTransform objects themselves; given ones are kept |
| `Mapping.SharedTransformKeepsFirstKey` | couchbase/_utils.py:285-297 | A ParamTransform shared by two transforms makes both write to the first one's key |
| `Mapping.MakeTable` | couchbase/_utils.py:305-310 | The table has exactly the transforms' keys, and of several transforms of one key the last one counts |
| `Mapping.ConvertToDest` | couchbase/_utils.py:312-327 | For every iteration order: fails iff a transform rejects its value; a mapped key's transformed value goes to the key its transform names, every other key and value stays, and nothing else is there; where keys share a destination one of them, the writer, wins it, and else each has its own |
| `Mapping.ConvertFromDest` | couchbase/_utils.py:329-342 | For every iteration order: the mapped keys present in the data, each transformed; fails iff one of them is rejected |
| `Mapping.FillDefaults` | couchbase/_utils.py:348-351 | The caller's own dict keeps what it had and gains exactly the missing mapped keys that have a default, with it |
| `Mapping.TransformToDest` | couchbase/_utils.py:344-352 | Defaults first, then conversion of the completed dict, with the same account of every key and value |
| `Mapping.RoundTrip` | couchbase/_utils.py:344-355 | If from-keys are the keys written to and the completed data is recoverable, there and back has exactly the mapped keys that were given or have a default, each with the value given or else its default, for every iteration order |
| `Mapping.ComesBackInEveryOrder` | couchbase/_utils.py:312-342 | For every table, with distinct destination keys or not, and all data that no transform rejects: the data comes back whatever the order of the dict iff every value sent where a mapped key is read from is read as that key's own, and that key is there (recoverable: a condition on table and data alone) |
| `Mapping.DistinctKeysAreRecoverable` | couchbase/_utils.py:285-300 | Equal, named and distinct keys, no clashing unmapped key and transforms that undo each other make data recoverable |
| `Mapping.ReversibleIsRecoverable` | couchbase/_utils.py:319-324 | The same where a transform may name no destination key |
| `Mapping.ComesBackExactly` | couchbase/_utils.py:329-342 | Given the converted dict, the data comes back iff every mapped key's from makes the key's own value of what is stored, and no mapped key finds a value it never had |
| `Mapping.CollisionLosesAValue` | couchbase/_utils.py:312-342 | Of two mapped keys of one destination in any table, the one written last comes back, and the other iff its from makes its own value of the winner's; if it does not, the data is not recoverable |
| `MacroCas.ConvertMacroCasToCas` | couchbase/subdocument.py:667-675 | Reversing the bytes in place and reading the hexadecimal gives the sum of byte i times 256^i; no bytes, or malformed digits, is an error |
| `MacroCas.Reverse` | couchbase/subdocument.py:674 | The array is reversed in place |
| `MacroCas.ConversionIsAnInvolution` | couchbase/subdocument.py:667-675 | For every non-empty string of digits of even length, with or without 0x, the number is below 256^n, its bytes are the given ones backwards, and converting its own fixed-width digits gives the number the input spells |
| `MacroCas.LittleEndianIsExact` | couchbase/subdocument.py:674-675 | n bytes give a number below 256^n whose base-256 digits are those bytes reversed |
| `MacroCas.ReversalSwapsEndianness` | couchbase/subdocument.py:674-675 | Reading the reversed bytes left to right is the little-endian value of the bytes |
| `MacroCas.FromHexInvertsToHex` | couchbase/subdocument.py:673-675 | Parsing the digits written for some bytes gives those bytes |
| `MacroCas.PairsAreBytes` | couchbase/subdocument.py:673 | An even string of digits spells one byte per pair, in either case |
| `MacroCas.OnlyPairsAreBytes` | couchbase/subdocument.py:673 | Without white space, a string is accepted iff it is an even string of digits |
| `MacroCas.SpaceIsSkipped` | couchbase/subdocument.py:673 | White space may come before a pair, and not within one |
| `MacroCas.DigitsAreTheUsualOnes` | couchbase/subdocument.py:673-675 | The sixteen digits have their usual values, in either case, and are written in lower case |
| `MacroCas.LittleEndianSnoc` | couchbase/subdocument.py:674-675 | A byte is worth its value times 256 to the number of bytes before it |
| `MacroCas.OnlyTheSmallPrefixIsStripped` | couchbase/subdocument.py:673 | A capital 0X is refused whatever follows, and so is a string that spells no byte |

## Left out

- Datastructures.Structure.Push: states its outcome through the protocol; a value that cannot be serialised is not modelled.
- Cluster.Cluster.WaitUntilReady: does not promise that the awaited services are there, because after its ping the code looks at the cluster state only.
- BinaryResponse.Interpreter.CreateResult: does not follow the references the callbacks themselves hold, nor failures of dict insertion, which the source only logs.
- Progress.FailuresAreBounded: bounds failures by others' mutations and not by a constant, since no constant exists; the constant bound on attempts comes from the deadline.
- The legacy `queue_pop` and `set_remove` of couchbase/collection.py: `queue_pop` removes without a CAS and does not have these properties.
- The synchronous `__iter__` and `__next__` of list and queue, which differ from the asynchronous iterator by having no awaits.
- `CouchbaseMap`, and the remaining `CouchbaseList` operations (append, prepend, set_at, remove_at, size): single atomic requests.
- The data structures' `size`, and `clear` of the set and list, which are the queue's.
- The other multi builders of couchbase/collection.py (transcoders, the replace expiry check, binary mutations), and multi results other than the counter's, which have the same code.
- What a multi-operation's entries contain; only their kind and their owner are modelled.
- MultiCall.MultiCall.Handle: does not speak of requests that throw; after a throw the main thread runs without the GIL, and what the interpreter then does is not modelled.
- Multi-operation arguments that are no dict, and empty keys: their promise is dropped unfulfilled, and waiting for it throws.
- Requests whose outcome is unknown to the client (ambiguous timeouts of one mutation), durability, tracing and the network.
- Rows that fail to deserialize; result building that fails while the exception is built; the completion callback of the asynchronous stream.
- The n1ql, search and views requests, which have the same shape as the analytics request.
- Equality across JSON number and boolean types in `index_of`, `remove` and `contains`.
- Spec builders other than the four the data structures use, option validators, timeouts in other units, transcoders, status tables and exception classes.
