/** create_result_from_binary_op_response: one response, for a multi operation, a blocking caller or an
    asynchronous one.  Counts the references it takes and checks that no promise is fulfilled twice. */
module BinaryResponse {
  import opened Sequences

  /** The Python objects of one response. */
  datatype Object = TrueObject | FalseObject | ResultObject | ExceptionObject

  /** A result that cannot be built may leave a half-built object behind. */
  datatype Building = Built | NothingBuilt | HalfBuilt

  datatype Response = ServerError | Ok(building: Building)

  datatype Handlers = Multi | Handlers(callback: bool, errback: bool)

  /** std::promise: a second set_value would throw. */
  class Promise {
    var value: Option<Object>

    constructor ()
      ensures value == None
    {
      value := None;
    }

    method SetValue(v: Object)
      requires value.None?
      modifies this
      ensures value == Some(v)
    {
      value := Some(v);
    }
  }

  function Count(b: bool): int {
    if b then 1 else 0
  }

  class Interpreter {
    var refs: map<Object, int>
    var dict: map<string, Object>
    var calls: seq<(bool, Object)>  // true: the callback; false: the errback

    constructor ()
      ensures dict == map[] && calls == [] && forall o :: Refs(o) == 0
    {
      refs, dict, calls := map[], map[], [];
    }

    /** References held through this response, beyond those the interpreter had before. */
    function Refs(o: Object): int
      reads this
    {
      if o in refs then refs[o] else 0
    }

    method AddRef(o: Object, n: int)
      modifies this`refs
      ensures forall p :: Refs(p) == old(Refs(p)) + Count(p == o) * n
    {
      refs := refs[o := Refs(o) + n];
    }

    /** References that an owner will release: the promise's waiter, and the dict. */
    ghost function Owned(o: Object, promise: Promise): int
      reads this, promise
    {
      Count(promise.value == Some(o)) + Count(o in dict.Values)
    }

    /** Fulfils the promise with b, and stores the entry in the shared dict, which becomes its owner. */
    method Deliver(key: string, b: Object, entry: Object, promise: Promise)
      requires promise.value.None? && dict == map[] && b != entry
      modifies this, promise
      ensures promise.value == Some(b) && dict == map[key := entry] && dict.Values == {entry} && calls == old(calls)
      ensures forall o :: Refs(o) == old(Refs(o)) + Count(o == b)
    {
      AddRef(b, 1);
      promise.SetValue(b);
      dict := dict[key := entry];
      assert dict[key] == entry;
      AddRef(entry, 1);
      AddRef(entry, -1);
    }

    method Call(callback: bool, argument: Object)
      modifies this
      ensures calls == old(calls) + [(callback, argument)] && dict == old(dict)
      ensures forall o :: Refs(o) == old(Refs(o)) - Count(o == argument)
    {
      calls := calls + [(callback, argument)];
      AddRef(argument, -1);  // releasing the argument tuple releases its item
    }

    /** What each branch does.  The last clause is the exact condition for every reference to have an
        owner that releases it. */
    method CreateResult(key: string, response: Response, handlers: Handlers, promise: Promise)
      requires promise.value.None? && dict == map[] && calls == [] && forall o :: Refs(o) == 0
      modifies this, promise
      ensures handlers.Multi? ==>
                && calls == []
                && promise.value == Some(if response == Ok(Built) then TrueObject else FalseObject)
                && dict == map[key := if response == Ok(Built) then ResultObject else ExceptionObject]
      ensures handlers.Handlers? ==>
                && dict == map[]
                && promise.value == (if response == Ok(Built) then
                                       if handlers.callback then None else Some(ResultObject)
                                     else if handlers.errback then None else Some(ExceptionObject))
                && calls == (if response == Ok(Built) && handlers.callback then [(true, ResultObject)]
                             else if response.ServerError? && handlers.errback then [(false, ExceptionObject)] else [])
      ensures (forall o :: Refs(o) == Owned(o, promise)) <==>
                && response != Ok(HalfBuilt)
                && (response == Ok(NothingBuilt) ==> !(handlers.Handlers? && handlers.errback))
    {
      var setException := false;
      if response.ServerError? {
        AddRef(ExceptionObject, 1);
        match handlers {
          case Multi => Deliver(key, FalseObject, ExceptionObject, promise);
          case Handlers(_, errback) =>
            if errback { Call(false, ExceptionObject); } else { promise.SetValue(ExceptionObject); }
        }
      } else {
        if response.building.Built? || response.building.HalfBuilt? { AddRef(ResultObject, 1); }
        if !response.building.Built? {
          setException := true;
        } else {
          match handlers {
            case Multi => Deliver(key, TrueObject, ResultObject, promise);
            case Handlers(callback, _) =>
              if callback { Call(true, ResultObject); } else { promise.SetValue(ResultObject); }
          }
        }
      }
      if setException {
        AddRef(ExceptionObject, 1);
        match handlers {
          case Multi => Deliver(key, FalseObject, ExceptionObject, promise);
          case Handlers(_, errback) =>
            // with an errback the argument tuple is made, but the guard on set_exception skips the call
            if !errback { promise.SetValue(ExceptionObject); }
        }
      }
      if response == Ok(HalfBuilt) {
        assert Refs(ResultObject) == 1 && Owned(ResultObject, promise) == 0;
      } else if response == Ok(NothingBuilt) && handlers.Handlers? && handlers.errback {
        assert Refs(ExceptionObject) == 1 && Owned(ExceptionObject, promise) == 0;
      }
    }
  }
}
