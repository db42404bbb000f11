/** increment_multi and decrement_multi from the caller's side: the per-key options that are built, and
    what the result object makes of the raw dict. */
module MultiCounter {
  import opened Sequences
  import opened MultiOp

  /** An option value.  Nothing is None; Other is any value that is truthy and no number. */
  datatype Arg = Nothing | Int(n: int) | Flag(b: bool) | DeltaValue(n: int) | SignedInt64(n: int) | Other(tag: string)

  type Args = map<string, Arg>

  function Lookup(args: Args, name: string): Arg {
    if name in args then args[name] else Nothing
  }

  predicate Truthy(a: Arg) {
    match a
    case Nothing => false
    case Int(n) => n != 0
    case Flag(b) => b
    case _ => true
  }

  /** _validate_delta_initial: None passes. */
  predicate ValidPair(delta: Arg, initial: Arg) {
    (delta.Nothing? || delta.DeltaValue?) && (initial.Nothing? || initial.SignedInt64?)
  }

  predicate ValidArgs(args: Args) {
    ValidPair(Lookup(args, "delta"), Lookup(args, "initial"))
  }

  /** The caller's delta and initial as plain integers. */
  function Plain(args: Args): Args {
    var delta, initial := Lookup(args, "delta"), Lookup(args, "initial");
    var args' := if delta.DeltaValue? then args["delta" := Int(delta.n)] else args;
    if initial.SignedInt64? then args'["initial" := Int(initial.n)] else args'
  }

  predicate HasNumbers(args: Args) {
    Lookup(args, "delta").DeltaValue? || Lookup(args, "initial").SignedInt64?
  }

  /** The global options with their defaults: delta 1, initial 0. */
  function Defaulted(args: Args): Args {
    var delta := if Truthy(Lookup(args, "delta")) then Lookup(args, "delta") else DeltaValue(1);
    var initial := if Truthy(Lookup(args, "initial")) then Lookup(args, "initial") else SignedInt64(0);
    args["delta" := delta]["initial" := initial]
  }

  ghost predicate Once(keys: seq<string>, k: string) {
    forall i, j :: 0 <= i < |keys| && 0 <= j < |keys| && keys[i] == k && keys[j] == k ==> i == j
  }

  /** What the builder accepts.  A key listed twice must not have a delta or initial of its own: the
      first visit overwrites it with a plain integer, which the second visit rejects. */
  ghost predicate Accepted(keys: seq<string>, global: Args, perKey: map<string, Args>) {
    && ValidArgs(Defaulted(global))
    && (forall k :: k in keys && k in perKey ==> ValidArgs(perKey[k]) && (HasNumbers(perKey[k]) ==> Once(keys, k)))
  }

  function Overlaid(global: Args, perKey: map<string, Args>, k: string): Args {
    var base := Plain(Defaulted(global));
    if k in perKey then base + Plain(perKey[k]) else base
  }

  lemma PlainOnce(args: Args)
    requires ValidArgs(args)
    ensures ValidArgs(Plain(args)) <==> !HasNumbers(args)
    ensures !HasNumbers(args) ==> Plain(args) == args
  {
  }

  /** The per-key options once the keys in seen were visited, and the op_args built so far. */
  function Visited(perKey: map<string, Args>, seen: set<string>): map<string, Args> {
    map k | k in perKey :: if k in seen then Plain(perKey[k]) else perKey[k]
  }

  function Built(global: Args, perKey: map<string, Args>, seen: set<string>): map<string, Args> {
    map k | k in seen :: Overlaid(global, perKey, k)
  }

  lemma VisitStep(global: Args, perKey: map<string, Args>, seen: set<string>, key: string)
    requires key in perKey ==> ValidArgs(Visited(perKey, seen)[key])
    ensures key in perKey ==>
              Visited(perKey, seen)[key := Plain(Visited(perKey, seen)[key])] == Visited(perKey, seen + {key})
              && Plain(Visited(perKey, seen)[key]) == Plain(perKey[key])
    ensures key !in perKey ==> Visited(perKey, seen) == Visited(perKey, seen + {key})
    ensures Built(global, perKey, seen)[key := Overlaid(global, perKey, key)] == Built(global, perKey, seen + {key})
  {
    if key in perKey && key in seen {
      PlainIsPlain(perKey[key]);
    }
  }

  lemma PlainIsPlain(args: Args)
    ensures !HasNumbers(Plain(args)) && Plain(Plain(args)) == Plain(args)
  {
  }

  /** The first n keys passed validation. */
  ghost predicate Passed(keys: seq<string>, perKey: map<string, Args>, n: nat)
    requires n <= |keys|
  {
    forall j :: 0 <= j < n && keys[j] in perKey ==> ValidArgs(Visited(perKey, Elements(keys[..j]))[keys[j]])
  }

  lemma PassedIsAccepted(keys: seq<string>, global: Args, perKey: map<string, Args>)
    requires ValidArgs(Defaulted(global)) && Passed(keys, perKey, |keys|)
    ensures Accepted(keys, global, perKey)
  {
    forall k | k in keys && k in perKey
      ensures ValidArgs(perKey[k]) && (HasNumbers(perKey[k]) ==> Once(keys, k))
    {
      var j := IndexOf(keys, k);
      assert ValidArgs(Visited(perKey, Elements(keys[..j]))[keys[j]]);
      if HasNumbers(perKey[k]) {
        forall l | 0 <= l < j ensures keys[l] != k {
          assert keys[..j][l] == keys[l];
        }
        forall l | 0 <= l < |keys| && keys[l] == k ensures l == j {
          if l > j {
            assert keys[..l][j] == k;
            PlainOnce(perKey[k]);
          }
        }
      }
    }
  }

  lemma FailedIsRejected(keys: seq<string>, global: Args, perKey: map<string, Args>, i: nat)
    requires i < |keys| && keys[i] in perKey && !ValidArgs(Visited(perKey, Elements(keys[..i]))[keys[i]])
    ensures !Accepted(keys, global, perKey)
  {
    if keys[i] in Elements(keys[..i]) && ValidArgs(perKey[keys[i]]) {
      PlainOnce(perKey[keys[i]]);
      var j :| 0 <= j < i && keys[..i][j] == keys[i];
      assert keys[j] == keys[i] && j != i;
    }
  }

  /** What is sent for a key, option by option.  An option of the key's own comes before a global one, and
      that before the default; delta and initial go out as plain integers. */
  lemma SentOptions(keys: seq<string>, global: Args, perKey: map<string, Args>, k: string, name: string)
    requires Accepted(keys, global, perKey) && k in keys
    ensures var built := Built(global, perKey, Elements(keys));
            && k in built
            && var sent := built[k]; var own := if k in perKey then perKey[k] else map[];
               && (name in own ==>
                   && name in sent
                   && (name == "delta" && own[name].DeltaValue? ==> sent[name] == Int(own[name].n))
                   && (name == "initial" && own[name].SignedInt64? ==> sent[name] == Int(own[name].n))
                   && (name == "delta" || name == "initial" ==> sent[name].Int? || sent[name].Nothing?)
                   && (name != "delta" && name != "initial" ==> sent[name] == own[name]))
               && (name !in own && name != "delta" && name != "initial" ==>
                     if name in global then name in sent && sent[name] == global[name] else name !in sent)
               && (name !in own && name == "delta" ==>
                   && name in sent
                   && sent[name] == Int(if name in global && global[name].DeltaValue? then global[name].n else 1))
               && (name !in own && name == "initial" ==>
                   && name in sent
                   && sent[name] == Int(if name in global && global[name].SignedInt64? then global[name].n else 0))
  {
    assert k in Elements(keys);
    if k in perKey { assert ValidArgs(perKey[k]); }
  }

  /** Options are built for exactly the keys listed. */
  lemma SentKeys(keys: seq<string>, global: Args, perKey: map<string, Args>, k: string)
    ensures k in Built(global, perKey, Elements(keys)) <==> k in keys
  {
  }

  /** None, or the class of number that the option asks for. */
  ghost predicate Allowed(args: Args, mayBeFalsy: bool) {
    && ("delta" in args ==> args["delta"].DeltaValue? || args["delta"].Nothing?
                            || (mayBeFalsy && args["delta"] in {Int(0), Flag(false)}))
    && ("initial" in args ==> args["initial"].SignedInt64? || args["initial"].Nothing?
                              || (mayBeFalsy && args["initial"] in {Int(0), Flag(false)}))
  }

  /** What is accepted: a global delta or initial that is the proper number or falsy; of each listed key the
      proper number, None or nothing; and a key listed twice has no number of its own. */
  lemma AcceptedOptions(keys: seq<string>, global: Args, perKey: map<string, Args>)
    ensures Accepted(keys, global, perKey) <==>
              && Allowed(global, true)
              && (forall k :: k in keys && k in perKey ==> Allowed(perKey[k], false))
              && (forall i, j :: 0 <= i < j < |keys| && keys[i] == keys[j] && keys[i] in perKey ==>
                    && !("delta" in perKey[keys[i]] && perKey[keys[i]]["delta"].DeltaValue?)
                    && !("initial" in perKey[keys[i]] && perKey[keys[i]]["initial"].SignedInt64?))
  {
    assert ValidArgs(Defaulted(global)) <==> Allowed(global, true);
    forall k | k in keys && k in perKey
      ensures ValidArgs(perKey[k]) <==> Allowed(perKey[k], false)
    {
    }
  }

  /** Listing a key twice is refused where listing it once is accepted. */
  lemma RepeatedKeyIsRefused(k: string, n: int)
    ensures var perKey: map<string, Args> := map[k := map["delta" := DeltaValue(n)]];
            Accepted([k], map[], perKey) && !Accepted([k, k], map[], perKey)
  {
    var perKey: map<string, Args> := map[k := map["delta" := DeltaValue(n)]];
    assert k in [k, k] && HasNumbers(perKey[k]);
    assert [k, k][0] == k && [k, k][1] == k;
    assert !Once([k, k], k);
    assert Once([k], k);
  }

  /** A dict keeps its keys in the order of their first insertion. */
  function FirstOccurrences(keys: seq<string>): seq<string>
    decreases |keys|
  {
    if keys == [] then []
    else
      var rest := FirstOccurrences(Front(keys));
      if Last(keys) in rest then rest else rest + [Last(keys)]
  }

  lemma {:induction false} FirstOccurrencesAreDistinct(keys: seq<string>)
    ensures NoDuplicates(FirstOccurrences(keys)) && Elements(FirstOccurrences(keys)) == Elements(keys)
    decreases |keys|
  {
    if keys != [] {
      var rest := FirstOccurrences(Front(keys));
      FirstOccurrencesAreDistinct(Front(keys));
      ElementsSnoc(keys, |keys| - 1);
      assert keys[..|keys|] == keys;
      assert Last(keys) in Elements(rest) <==> Last(keys) in rest;
      if Last(keys) !in rest {
        assert (rest + [Last(keys)])[..|rest|] == rest && (rest + [Last(keys)])[..|rest| + 1] == rest + [Last(keys)];
        ElementsSnoc(rest + [Last(keys)], |rest|);
      }
    }
  }

  lemma {:induction false} FirstOccurrencesKeepOrder(keys: seq<string>, i: nat, j: nat)
    requires i < j < |FirstOccurrences(keys)|
    ensures var order := FirstOccurrences(keys);
            0 <= IndexOf(keys, order[i]) < IndexOf(keys, order[j])
    decreases |keys|
  {
    var order, rest := FirstOccurrences(keys), FirstOccurrences(Front(keys));
    FirstOccurrencesAreDistinct(keys);
    FirstOccurrencesAreDistinct(Front(keys));
    assert order[i] in Elements(rest) && order[j] in Elements(order);
    IndexInFront(keys, order[i]);
    if j < |rest| {
      FirstOccurrencesKeepOrder(Front(keys), i, j);
      assert order[j] in Elements(rest);
      IndexInFront(keys, order[j]);
    } else {
      assert order[j] == Last(keys) && order[j] !in Elements(rest);
    }
  }

  lemma IndexInFront(keys: seq<string>, k: string)
    requires keys != [] && k in Front(keys)
    ensures IndexOf(keys, k) == IndexOf(Front(keys), k)
  {
    var i, j := IndexOf(keys, k), IndexOf(Front(keys), k);
    assert keys[j] == k && keys[..j] == Front(keys)[..j];
    FirstIsOne(keys, k, i, j);
  }

  lemma FirstIsOne(keys: seq<string>, k: string, i: nat, j: nat)
    requires i < |keys| && keys[i] == k && k !in keys[..i]
    requires j < |keys| && keys[j] == k && k !in keys[..j]
    ensures i == j
  {
    assert forall l :: 0 <= l < i ==> keys[..i][l] == keys[l];
    assert forall l :: 0 <= l < j ==> keys[..j][l] == keys[l];
  }

  datatype OpArgs = OpArgs(order: seq<string>, args: map<string, Args>)

  /** _get_multi_counter_op_args on options that are already parsed; None is InvalidArgumentException. */
  method GetMultiCounterOpArgs(keys: seq<string>, global: Args, perKeyOptions: map<string, Args>)
    returns (built: Option<OpArgs>)
    ensures built.Some? <==> Accepted(keys, global, perKeyOptions)
    ensures built.Some? ==>
              built.value == OpArgs(FirstOccurrences(keys), Built(global, perKeyOptions, Elements(keys)))
  {
    var finalArgs := Defaulted(global);
    if !ValidArgs(finalArgs) { return None; }
    finalArgs := Plain(finalArgs);
    var perKey := perKeyOptions;
    var order, args: map<string, Args> := [], map[];
    assert keys[..0] == [];
    for i := 0 to |keys|
      invariant order == FirstOccurrences(keys[..i])
      invariant perKey == Visited(perKeyOptions, Elements(keys[..i]))
      invariant args == Built(global, perKeyOptions, Elements(keys[..i]))
      invariant Passed(keys, perKeyOptions, i)
    {
      var key := keys[i];
      ElementsSnoc(keys, i);
      assert Front(keys[..i + 1]) == keys[..i];
      if key !in order { order := order + [key]; }
      var keyArgs := finalArgs;
      if key in perKey {
        if !ValidArgs(perKey[key]) {
          FailedIsRejected(keys, global, perKeyOptions, i);
          return None;
        }
        perKey := perKey[key := Plain(perKey[key])];
        keyArgs := keyArgs + perKey[key];
      }
      VisitStep(global, perKeyOptions, Elements(keys[..i]), key);
      args := args[key := keyArgs];
    }
    assert keys[..|keys|] == keys;
    PassedIsAccepted(keys, global, perKeyOptions);
    return Some(OpArgs(order, args));
  }

  lemma ElementsSnoc(keys: seq<string>, i: nat)
    requires i < |keys|
    ensures Elements(keys[..i + 1]) == Elements(keys[..i]) + {keys[i]}
  {
    assert keys[..i + 1] == keys[..i] + [keys[i]];
  }

  /* From the raw dict to MultiCounterResult. */

  datatype MultiResult = MultiResult(allOk: bool, entries: map<string, Entry>)

  /** The constructor, on a raw dict in any order; None means that an entry's exception was raised. */
  method MakeMultiResult(raw: map<string, Entry>, returnExceptions: bool) returns (made: Option<MultiResult>)
    requires forall k :: k in raw && k != ALL_OKAY ==> !raw[k].AllOkay?
    requires ALL_OKAY in raw ==> raw[ALL_OKAY].AllOkay?
    ensures made.None? <==> !returnExceptions && exists k :: k in raw && raw[k].Exception?
    ensures made.Some? ==> made.value == MultiResult(ALL_OKAY in raw && raw[ALL_OKAY].ok, raw - {ALL_OKAY})
  {
    var allOk := ALL_OKAY in raw && raw[ALL_OKAY].ok;
    var rest := raw - {ALL_OKAY};
    var todo := rest.Keys;
    var entries: map<string, Entry> := map[];
    while todo != {}
      invariant todo <= rest.Keys && entries == rest - todo
      invariant !returnExceptions ==> forall k :: k in entries ==> !entries[k].Exception?
      decreases todo
    {
      var k :| k in todo;
      todo := todo - {k};
      if rest[k].Exception? && !returnExceptions {
        assert raw[k].Exception?;
        return None;
      }
      entries := entries[k := rest[k]];
      assert entries == rest - todo;
    }
    assert entries == rest;
    forall k | !returnExceptions && k in raw ensures !raw[k].Exception? {
      if k != ALL_OKAY { assert raw[k] == entries[k]; }
    }
    return Some(MultiResult(allOk, entries));
  }

  /** The entries property picks: the ones that are results, or the ones that are not. */
  method Select(m: MultiResult, results: bool) returns (picked: map<string, Entry>)
    ensures picked == map k | k in m.entries && m.entries[k].Result? == results :: m.entries[k]
  {
    var todo := m.entries.Keys;
    picked := map[];
    while todo != {}
      invariant todo <= m.entries.Keys
      invariant picked == map k | k in m.entries && k !in todo && m.entries[k].Result? == results :: m.entries[k]
      decreases todo
    {
      var k :| k in todo;
      todo := todo - {k};
      if m.entries[k].Result? == results { picked := picked[k := m.entries[k]]; }
    }
  }

  /** The keys that must be reported. */
  function Reportable(requests: seq<Request>): set<string> {
    set i | 0 <= i < |requests| && !requests[i].dispatch.Unrecognised? :: requests[i].key
  }

  function KeysOfKind(raw: map<string, Entry>, results: bool): set<string> {
    set k | k in raw && k != ALL_OKAY && raw[k].Result? == results
  }

  lemma EntriesAreReports(requests: seq<Request>, actions: seq<Action>)
    requires WellFormed(requests) && Run(requests, actions).main.Returned?
    ensures var raw := Run(requests, actions).dict;
            && raw.Keys == Reportable(requests) + {ALL_OKAY}
            && forall k :: k in raw && k != ALL_OKAY ==> raw[k].Result? || raw[k].Exception?
  {
    ReturnedDictIsComplete(requests, actions);
    var st := Run(requests, actions);
    forall k | k in st.dict && k != ALL_OKAY
      ensures k in Reportable(requests) && (st.dict[k].Result? || st.dict[k].Exception?)
    {
      var i :| 0 <= i < |requests| && requests[i].key == k;
      assert Reported(st, requests, i);
    }
    forall k | k in Reportable(requests) ensures k in st.dict {
      var i :| 0 <= i < |requests| && !requests[i].dispatch.Unrecognised? && requests[i].key == k;
      assert Reported(st, requests, i);
    }
  }

  lemma AllOkayMeansNoExceptions(requests: seq<Request>, actions: seq<Action>)
    requires WellFormed(requests) && Run(requests, actions).main.Returned?
    ensures var raw := Run(requests, actions).dict;
            && ALL_OKAY in raw && raw[ALL_OKAY].AllOkay?
            && (raw[ALL_OKAY].ok <==> KeysOfKind(raw, false) == {})
  {
    ReturnedDictIsComplete(requests, actions);
    EntriesAreReports(requests, actions);
    var st := Run(requests, actions);
    forall i | 0 <= i < |requests|
      ensures requests[i].key in KeysOfKind(st.dict, false) <==>
                !(Succeeded(st, i) || requests[i].dispatch.Unrecognised?)
    {
      assert Reported(st, requests, i);
    }
    if k :| k in KeysOfKind(st.dict, false) {
      assert k in Reportable(requests);
    }
  }

  /** From the protocol to the caller, under every interleaving: results and exceptions partition the
      keys if the operation is recognised, all_ok says whether there are exceptions, and what raises when
      exceptions are not to be returned is exactly such a failure. */
  lemma OutcomeIsAPartition(requests: seq<Request>, actions: seq<Action>)
    requires WellFormed(requests) && Run(requests, actions).main.Returned?
    ensures var raw := Run(requests, actions).dict;
            var (results, exceptions) := (KeysOfKind(raw, true), KeysOfKind(raw, false));
            && results + exceptions == Reportable(requests) && results !! exceptions
            && ALL_OKAY in raw && raw[ALL_OKAY].AllOkay?
            && (raw[ALL_OKAY].ok <==> exceptions == {})
            && (exceptions == {} <==> !exists k :: k in raw && raw[k].Exception?)
  {
    EntriesAreReports(requests, actions);
    AllOkayMeansNoExceptions(requests, actions);
    var raw := Run(requests, actions).dict;
    var exceptions := KeysOfKind(raw, false);
    assert ALL_OKAY !in Reportable(requests);
    if k :| k in exceptions { assert raw[k].Exception?; }
    if k :| k in raw && raw[k].Exception? { assert k in exceptions; }
  }
}
