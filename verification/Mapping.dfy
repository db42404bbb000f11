/** The bidirectional mapping between a settings dict and the server's parameters. */
module Mapping {
  import opened Sequences
  import opened Server

  /** A value transform; None is InvalidArgumentException. */
  type Transform = Json -> Option<Json>

  /** Its key can be set after it was made. */
  class ParamTransform {
    var key: Option<string>
    const transform: Transform

    constructor (key: Option<string>, transform: Transform)
      ensures this.key == key && this.transform == transform
    {
      this.key, this.transform := key, transform;
    }
  }

  /** A transform's two directions and its default, with the keys they had when the mapping is used. */
  datatype Components = Components(toKey: Option<string>, to: Transform, fromKey: Option<string>, from: Transform,
                                   default: Option<Json>)

  class BidirectionalTransform {
    const key: string
    const toDest: ParamTransform
    const fromDest: ParamTransform
    const default: Option<Json>

    /** Fills in the keys that are missing, in the ParamTransform objects themselves. */
    constructor (key: string, toDest: ParamTransform, fromDest: ParamTransform, default: Option<Json>)
      modifies toDest, fromDest
      ensures this.key == key && this.toDest == toDest && this.fromDest == fromDest && this.default == default
      ensures toDest.key == (if old(toDest.key).None? then Some(key) else old(toDest.key))
      ensures fromDest.key == (if old(fromDest.key).None? then Some(key) else old(fromDest.key))
    {
      this.key, this.toDest, this.fromDest, this.default := key, toDest, fromDest, default;
      new;
      if toDest.key.None? { toDest.key := Some(key); }
      if fromDest.key.None? { fromDest.key := Some(key); }
    }

    function AsComponents(): (c: Components)
      reads toDest, fromDest
      ensures c.toKey == toDest.key && c.to == toDest.transform && c.fromKey == fromDest.key
              && c.from == fromDest.transform && c.default == default
    {
      Components(toDest.key, toDest.transform, fromDest.key, fromDest.transform, default)
    }
  }

  /** Why ParamTransform objects must not be shared: the second transform gets the first one's key, so
      two source keys are written to one destination key. */
  method SharedTransformKeepsFirstKey(a: string, b: string, transform: Transform)
    returns (first: BidirectionalTransform, second: BidirectionalTransform)
    ensures first.key == a && second.key == b
    ensures first.AsComponents().toKey == second.AsComponents().toKey == Some(a)
  {
    var shared := new ParamTransform(None, transform);
    first := new BidirectionalTransform(a, shared, shared, None);
    second := new BidirectionalTransform(b, shared, shared, None);
  }

  type Table = map<string, Components>

  /** BidirectionalMapping's constructor: of two transforms of one key the later one counts. */
  method MakeTable(transforms: seq<BidirectionalTransform>) returns (table: Table)
    ensures forall k :: k in table <==> exists i :: 0 <= i < |transforms| && transforms[i].key == k
    ensures forall i :: 0 <= i < |transforms| ==>
              (transforms[i].key in table && table[transforms[i].key] == transforms[i].AsComponents())
              || exists j :: i < j < |transforms| && transforms[j].key == transforms[i].key
  {
    table := map[];
    for n := 0 to |transforms|
      invariant forall k :: k in table <==> exists i :: 0 <= i < n && transforms[i].key == k
      invariant forall i :: 0 <= i < n ==>
                  (transforms[i].key in table && table[transforms[i].key] == transforms[i].AsComponents())
                  || exists j :: i < j < n && transforms[j].key == transforms[i].key
    {
      table := table[transforms[n].key := transforms[n].AsComponents()];
    }
  }

  /** The destination key of k: its own, unless that is missing or empty. */
  function DestKey(table: Table, k: string): string {
    if k in table && table[k].toKey.Some? && table[k].toKey.value != "" then table[k].toKey.value else k
  }

  function ToDest(table: Table, k: string, v: Json): Option<Json> {
    if k in table then table[k].to(v) else Some(v)
  }

  /** No two keys of the data go to one destination key. */
  ghost predicate NoCollision(table: Table, keys: set<string>) {
    forall j, k :: j in keys && k in keys && DestKey(table, j) == DestKey(table, k) ==> j == k
  }

  /** What convert_to_dest may make of raw: every destination key holds the value of some key of its own,
      its writer, the one that comes last in the order of the dict. */
  ghost predicate Converts(table: Table, raw: map<string, Json>, converted: map<string, Json>,
                           writers: map<string, string>)
  {
    && writers.Keys == converted.Keys
    && (forall k :: k in raw ==> DestKey(table, k) in converted)
    && (forall d :: d in converted ==> writers[d] in raw && DestKey(table, writers[d]) == d
                                       && ToDest(table, writers[d], raw[writers[d]]) == Some(converted[d]))
  }

  /** The same while the keys in todo are still to come. */
  ghost predicate PartlyConverts(table: Table, raw: map<string, Json>, todo: set<string>, result: map<string, Json>,
                                 writers: map<string, string>)
  {
    && writers.Keys == result.Keys
    && (forall k :: k in raw && k !in todo ==> DestKey(table, k) in result)
    && (forall d :: d in result ==> writers[d] in raw && DestKey(table, writers[d]) == d
                                    && ToDest(table, writers[d], raw[writers[d]]) == Some(result[d]))
  }

  lemma OneMoreKey(table: Table, raw: map<string, Json>, todo: set<string>, result: map<string, Json>,
                   writers: map<string, string>, k: string, v: Json)
    requires PartlyConverts(table, raw, todo + {k}, result, writers)
    requires k in raw && ToDest(table, k, raw[k]) == Some(v)
    ensures PartlyConverts(table, raw, todo, result[DestKey(table, k) := v], writers[DestKey(table, k) := k])
  {
  }

  /** The same from the table's fields: a mapped key goes to the key its transform names, every other key,
      and one whose transform names none, stays; mapped values are transformed, others are not. */
  ghost predicate Writes(table: Table, raw: map<string, Json>, converted: map<string, Json>,
                         writers: map<string, string>)
  {
    && writers.Keys == converted.Keys
    && (forall k :: k in raw && k in table && table[k].toKey.Some? && table[k].toKey.value != "" ==>
          table[k].toKey.value in converted)
    && (forall k :: k in raw && (k !in table || table[k].toKey.None? || table[k].toKey == Some("")) ==>
          k in converted)
    && (forall d :: d in converted ==> writers[d] in raw
                                       && WrittenBy(table, raw[writers[d]], converted[d], writers[d], d))
  }

  /** v is what key k, holding u, puts at d. */
  ghost predicate WrittenBy(table: Table, u: Json, v: Json, k: string, d: string) {
    if k !in table then d == k && v == u
    else
      && table[k].to(u) == Some(v)
      && if table[k].toKey.None? || table[k].toKey == Some("") then d == k else table[k].toKey == Some(d)
  }

  lemma ConvertsWrites(table: Table, raw: map<string, Json>, converted: map<string, Json>,
                       writers: map<string, string>)
    requires Converts(table, raw, converted, writers)
    ensures Writes(table, raw, converted, writers)
  {
    forall k | k in raw
      ensures k in table && table[k].toKey.Some? && table[k].toKey.value != "" ==> table[k].toKey.value in converted
      ensures k !in table || table[k].toKey.None? || table[k].toKey == Some("") ==> k in converted
    {
      assert DestKey(table, k) in converted;
    }
  }

  /** convert_to_dest, in any iteration order; None when a transform rejects its value. */
  method ConvertToDest(table: Table, raw: map<string, Json>)
    returns (converted: Option<map<string, Json>>, ghost writers: map<string, string>)
    ensures converted.None? <==> exists k :: k in raw && k in table && table[k].to(raw[k]).None?
    ensures converted.Some? ==> Writes(table, raw, converted.value, writers)
    ensures converted.Some? ==> Converts(table, raw, converted.value, writers)
    ensures converted.Some? && NoCollision(table, raw.Keys) ==>
              forall k :: k in raw ==> Some(converted.value[DestKey(table, k)]) == ToDest(table, k, raw[k])
  {
    var todo := raw.Keys;
    var result: map<string, Json> := map[];
    writers := map[];
    while todo != {}
      invariant todo <= raw.Keys && PartlyConverts(table, raw, todo, result, writers)
      invariant forall k :: k in raw && k !in todo ==> ToDest(table, k, raw[k]).Some?
      decreases todo
    {
      var k :| k in todo;
      assert todo - {k} + {k} == todo;
      todo := todo - {k};
      var v := ToDest(table, k, raw[k]);
      if v.None? { return None, writers; }
      OneMoreKey(table, raw, todo, result, writers, k, v.value);
      result, writers := result[DestKey(table, k) := v.value], writers[DestKey(table, k) := k];
    }
    ConvertsWrites(table, raw, result, writers);
    if NoCollision(table, raw.Keys) { NoKeyIsLost(table, raw, result, writers); }
    return Some(result), writers;
  }

  /** Where no two keys go to one place, each key's value is there. */
  lemma NoKeyIsLost(table: Table, raw: map<string, Json>, converted: map<string, Json>, writers: map<string, string>)
    requires Converts(table, raw, converted, writers) && NoCollision(table, raw.Keys)
    ensures forall k :: k in raw ==> Some(converted[DestKey(table, k)]) == ToDest(table, k, raw[k])
  {
    forall k | k in raw ensures Some(converted[DestKey(table, k)]) == ToDest(table, k, raw[k]) {
      assert writers[DestKey(table, k)] == k;
    }
  }

  /** convert_from_dest: destination keys that are missing are skipped, unmapped ones dropped. */
  method ConvertFromDest(table: Table, raw: map<string, Json>) returns (converted: Option<map<string, Json>>)
    ensures converted.Some? <==> Readable(table, raw)
    ensures converted.None? <==> exists k :: k in table && table[k].fromKey.Some? && table[k].fromKey.value in raw
                                             && table[k].from(raw[table[k].fromKey.value]).None?
    ensures converted.Some? ==>
              forall k :: (k in converted.value <==>
                             k in table && table[k].fromKey.Some? && table[k].fromKey.value in raw)
                          && (k in converted.value ==>
                                Some(converted.value[k]) == table[k].from(raw[table[k].fromKey.value]))
    ensures converted.Some? ==> converted.value == ReadAll(table, raw)
  {
    var todo := table.Keys;
    var result: map<string, Json> := map[];
    while todo != {}
      invariant todo <= table.Keys
      invariant forall k :: Mapped(table, raw, k) && k !in todo ==> table[k].from(raw[table[k].fromKey.value]).Some?
      invariant forall k :: k in result <==> Mapped(table, raw, k) && k !in todo
      invariant forall k :: k in result ==> result[k] == Read(table, raw, k)
      decreases todo
    {
      var k :| k in todo;
      todo := todo - {k};
      if Mapped(table, raw, k) {
        var v := table[k].from(raw[table[k].fromKey.value]);
        if v.None? { return None; }
        result := result[k := v.value];
      }
    }
    SameMap(result, ReadAll(table, raw));
    return Some(result);
  }

  predicate Mapped(table: Table, raw: map<string, Json>, k: string) {
    k in table && table[k].fromKey.Some? && table[k].fromKey.value in raw
  }

  function Read(table: Table, raw: map<string, Json>, k: string): Json
    requires Mapped(table, raw, k)
  {
    var v := table[k].from(raw[table[k].fromKey.value]);
    if v.Some? then v.value else Null
  }

  function ReadAll(table: Table, raw: map<string, Json>): map<string, Json> {
    map k | k in table && Mapped(table, raw, k) :: Read(table, raw, k)
  }

  ghost predicate Readable(table: Table, raw: map<string, Json>) {
    forall k :: Mapped(table, raw, k) ==> table[k].from(raw[table[k].fromKey.value]).Some?
  }

  function Restricted(table: Table, data: map<string, Json>): map<string, Json> {
    map k | k in table && k in data :: data[k]
  }

  /** A mutable dict. */
  class Dict {
    var items: map<string, Json>

    constructor (items: map<string, Json>)
      ensures this.items == items
    {
      this.items := items;
    }
  }

  function WithDefaults(table: Table, data: map<string, Json>): map<string, Json> {
    data + map k | k in table && k !in data && table[k].default.Some? :: table[k].default.value
  }

  /** What was given stays; of the rest, exactly the mapped keys with a default are there, with it. */
  ghost predicate Filled(table: Table, given: map<string, Json>, items: map<string, Json>) {
    && (forall k :: k in given ==> k in items && items[k] == given[k])
    && (forall k :: k in items && k !in given ==> k in table && table[k].default == Some(items[k]))
    && (forall k :: k in table && table[k].default.Some? ==> k in items)
  }

  method FillDefaults(table: Table, data: Dict)
    modifies data
    ensures data.items == WithDefaults(table, old(data.items)) && Filled(table, old(data.items), data.items)
  {
    var todo := table.Keys;
    ghost var given := data.items;
    while todo != {}
      invariant todo <= table.Keys
      invariant forall k :: k in data.items <==> k in given || (k in table && k !in todo && table[k].default.Some?)
      invariant forall k :: k in given ==> data.items[k] == given[k]
      invariant forall k :: k in data.items && k !in given ==> Some(data.items[k]) == table[k].default
      decreases todo
    {
      var k :| k in todo;
      todo := todo - {k};
      if k !in data.items && table[k].default.Some? {
        data.items := data.items[k := table[k].default.value];
      }
    }
    assert data.items == WithDefaults(table, given);
  }

  /** transform_to_dest: the defaults are written into the caller's dict. */
  method TransformToDest(table: Table, data: Dict)
    returns (converted: Option<map<string, Json>>, ghost writers: map<string, string>)
    modifies data
    ensures data.items == WithDefaults(table, old(data.items)) && Filled(table, old(data.items), data.items)
    ensures converted.None? <==> exists k :: k in data.items && k in table && table[k].to(data.items[k]).None?
    ensures converted.Some? ==> Writes(table, data.items, converted.value, writers)
    ensures converted.Some? ==> Converts(table, data.items, converted.value, writers)
    ensures converted.Some? && NoCollision(table, data.items.Keys) ==>
              forall k :: k in data.items ==>
                Some(converted.value[DestKey(table, k)]) == ToDest(table, k, data.items[k])
  {
    FillDefaults(table, data);
    converted, writers := ConvertToDest(table, data.items);
  }

  /** A mapping that can be undone: from-keys are the destination keys, which are distinct. */
  ghost predicate Reversible(table: Table) {
    && (forall k :: k in table ==> table[k].fromKey == Some(DestKey(table, k)))
    && NoCollision(table, table.Keys)
  }

  /** Its transforms undo each other on the given data. */
  ghost predicate Inverse(table: Table, data: map<string, Json>) {
    forall k :: k in data && k in table ==>
      table[k].to(data[k]).Some? && table[k].from(table[k].to(data[k]).value) == Some(data[k])
  }

  /** No key that is not mapped is the destination key of one that is. */
  ghost predicate Apart(table: Table, data: map<string, Json>) {
    forall j, k :: j in data && j !in table && k in table ==> DestKey(table, k) != j
  }

  /** Transforming to the destination and back gives the data with its defaults, restricted to the mapped
      keys, for every iteration order of either dict. */
  method RoundTrip(table: Table, data: Dict) returns (back: Option<map<string, Json>>)
    requires FromMatches(table) && Recoverable(table, WithDefaults(table, data.items))
    modifies data
    ensures back == Some(Restricted(table, WithDefaults(table, old(data.items))))
    ensures forall k ::
              && (k in back.value <==> k in table && (k in old(data.items) || table[k].default.Some?))
              && (k in back.value && k in old(data.items) ==> back.value[k] == old(data.items)[k])
              && (k in back.value && k !in old(data.items) ==> Some(back.value[k]) == table[k].default)
  {
    var there;
    ghost var writers;
    there, writers := TransformToDest(table, data);
    NothingIsRejected(table, data.items);
    ComesBackWhenRecoverable(table, data.items, there.value, writers);
    back := ConvertFromDest(table, there.value);
  }

  lemma SameMap(a: map<string, Json>, b: map<string, Json>)
    requires forall k :: k in a <==> k in b
    requires forall k :: k in a ==> a[k] == b[k]
    ensures a == b
  {
  }

  /** The keys that from reads are those that to writes; they need not be distinct. */
  ghost predicate FromMatches(table: Table) {
    forall k :: k in table ==>
      table[k].fromKey == if table[k].toKey.None? || table[k].toKey == Some("") then Some(k) else table[k].toKey
  }

  lemma FromMatchesDestKey(table: Table, k: string)
    requires FromMatches(table) && k in table
    ensures table[k].fromKey == Some(DestKey(table, k))
  {
  }

  /** Without distinct destination keys: whatever is stored there, the data comes back exactly when every
      mapped key's from makes the key's own value of what is stored, and no other mapped key finds a
      value it never had. */
  lemma ComesBackExactly(table: Table, data: map<string, Json>, there: map<string, Json>)
    requires FromMatches(table) && forall k :: k in data ==> DestKey(table, k) in there
    ensures ComesBack(table, data, there) <==> forall k :: k in table ==> KeyComesBack(table, data, there, k)
  {
    var back, wanted := ReadAll(table, there), Restricted(table, data);
    if ComesBack(table, data, there) {
      forall k | k in table ensures KeyComesBack(table, data, there, k) {
        FromMatchesDestKey(table, k);
        assert k in wanted <==> k in data;
        assert k in back <==> Mapped(table, there, k);
        if k in data {
          assert DestKey(table, k) in there;
          assert back[k] == wanted[k];
        }
      }
    } else if forall k :: k in table ==> KeyComesBack(table, data, there, k) {
      AllKeysComeBack(table, data, there);
    }
  }

  /** Where k is read, its own value is made of what is there, or nothing is there that was not sent. */
  ghost predicate KeyComesBack(table: Table, data: map<string, Json>, there: map<string, Json>, k: string)
    requires k in table
  {
    var d := DestKey(table, k);
    if k in data then d in there && table[k].from(there[d]) == Some(data[k]) else d !in there
  }

  lemma AllKeysComeBack(table: Table, data: map<string, Json>, there: map<string, Json>)
    requires FromMatches(table) && forall k :: k in table ==> KeyComesBack(table, data, there, k)
    ensures ComesBack(table, data, there)
  {
    forall k | k in table
      ensures Mapped(table, there, k) <==> k in data
      ensures k in data ==>
                table[k].from(there[table[k].fromKey.value]) == Some(data[k]) && Read(table, there, k) == data[k]
    {
      FromMatchesDestKey(table, k);
      assert KeyComesBack(table, data, there, k);
    }
    SameMap(ReadAll(table, there), Restricted(table, data));
  }

  /** The value of j is sent where k is read back from. */
  ghost predicate Lands(table: Table, data: map<string, Json>, j: string, k: string) {
    j in data && k in table && DestKey(table, j) == DestKey(table, k)
  }

  /** Every value that lands where k is read back from must be read as k's own: also k's must be there. */
  ghost predicate Recoverable(table: Table, data: map<string, Json>) {
    forall j, k :: Lands(table, data, j, k) ==>
      && k in data && ToDest(table, j, data[j]).Some?
      && table[k].from(ToDest(table, j, data[j]).value) == Some(data[k])
  }

  /** What was sent is read back as the data, restricted to the mapped keys. */
  ghost predicate ComesBack(table: Table, data: map<string, Json>, there: map<string, Json>) {
    Readable(table, there) && ReadAll(table, there) == Restricted(table, data)
  }

  lemma NothingIsRejected(table: Table, data: map<string, Json>)
    requires Recoverable(table, data)
    ensures forall k :: k in data && k in table ==> table[k].to(data[k]).Some?
  {
    forall k | k in data && k in table ensures table[k].to(data[k]).Some? {
      assert Lands(table, data, k, k);
    }
  }

  lemma ReadAsOwn(table: Table, data: map<string, Json>, there: map<string, Json>, writers: map<string, string>,
                  k: string)
    requires Recoverable(table, data) && Converts(table, data, there, writers)
    requires k in table && DestKey(table, k) in there
    ensures k in data && table[k].from(there[DestKey(table, k)]) == Some(data[k])
  {
    assert Lands(table, data, writers[DestKey(table, k)], k);
  }

  lemma ComesBackWhenRecoverable(table: Table, data: map<string, Json>, there: map<string, Json>,
                                 writers: map<string, string>)
    requires FromMatches(table) && Recoverable(table, data) && Converts(table, data, there, writers)
    ensures ComesBack(table, data, there)
  {
    forall k | k in table ensures KeyComesBack(table, data, there, k) {
      if k in data { assert DestKey(table, k) in there; }
      if DestKey(table, k) in there { ReadAsOwn(table, data, there, writers, k); }
    }
    AllKeysComeBack(table, data, there);
  }

  /** An order of the dict in which j writes last to its destination. */
  lemma LastWriter(table: Table, data: map<string, Json>, j: string)
    returns (there: map<string, Json>, writers: map<string, string>)
    requires j in data && forall k :: k in data ==> ToDest(table, k, data[k]).Some?
    ensures Converts(table, data, there, writers) && DestKey(table, j) in there && writers[DestKey(table, j)] == j
  {
    there, writers := map[], map[];
    var todo := data.Keys;
    while todo != {}
      invariant todo <= data.Keys && PartlyConverts(table, data, todo, there, writers)
      decreases todo
    {
      var k :| k in todo;
      var rest := todo - {k};
      assert rest + {k} == todo;
      OneMoreKey(table, data, rest, there, writers, k, ToDest(table, k, data[k]).value);
      todo := rest;
      there, writers := there[DestKey(table, k) := ToDest(table, k, data[k]).value], writers[DestKey(table, k) := k];
    }
    var d := DestKey(table, j);
    OneMoreKey(table, data, {}, there, writers, j, ToDest(table, j, data[j]).value);
    there, writers := there[d := ToDest(table, j, data[j]).value], writers[d := j];
  }

  /** For every table and all data that no transform rejects: the data comes back whatever the order of the
      dict exactly if it is recoverable, which can be told before it is sent. */
  lemma ComesBackInEveryOrder(table: Table, data: map<string, Json>)
    requires FromMatches(table) && forall k :: k in data && k in table ==> table[k].to(data[k]).Some?
    ensures (forall there, writers :: Converts(table, data, there, writers) ==> ComesBack(table, data, there))
            <==> Recoverable(table, data)
  {
    if Recoverable(table, data) {
      forall there, writers | Converts(table, data, there, writers) ensures ComesBack(table, data, there) {
        ComesBackWhenRecoverable(table, data, there, writers);
      }
    } else {
      var j, k :| Lands(table, data, j, k)
                  && !(k in data && table[k].from(ToDest(table, j, data[j]).value) == Some(data[k]));
      var there, writers := LastWriter(table, data, j);
      ComesBackExactly(table, data, there);
      assert !KeyComesBack(table, data, there, k);
      assert Converts(table, data, there, writers) && !ComesBack(table, data, there);
    }
  }

  /** Equal, named and distinct keys, that no unmapped key clashes with, and transforms that undo each other
      are enough. */
  lemma DistinctKeysAreRecoverable(table: Table, data: map<string, Json>)
    requires forall k :: k in table ==>
               table[k].fromKey == table[k].toKey && table[k].toKey.Some? && table[k].toKey.value != ""
    requires forall j, k :: j in table && k in table && table[j].toKey == table[k].toKey ==> j == k
    requires forall j, k :: j in data && j !in table && k in table ==> table[k].toKey != Some(j)
    requires forall k :: k in table && k in data ==>
               table[k].to(data[k]).Some? && table[k].from(table[k].to(data[k]).value) == Some(data[k])
    ensures FromMatches(table) && Recoverable(table, data)
  {
  }

  /** Also a transform that names no key is fine. */
  lemma ReversibleIsRecoverable(table: Table, data: map<string, Json>)
    requires Reversible(table) && Inverse(table, data) && Apart(table, data)
    ensures FromMatches(table) && Recoverable(table, data)
  {
  }

  /** Two mapped keys of one destination, one of which wrote last: it comes back, and the other exactly
      when its from makes its own value of the winner's. */
  lemma CollisionLosesAValue(table: Table, data: map<string, Json>, there: map<string, Json>,
                             winner: string, loser: string)
    requires FromMatches(table) && Readable(table, there) && Inverse(table, data)
    requires winner in table && winner in data && loser in table && loser in data
    requires var d := DestKey(table, winner); d == DestKey(table, loser) && d in there
                                              && table[winner].to(data[winner]) == Some(there[d])
    ensures table[loser].from(table[winner].to(data[winner]).value) != Some(data[loser]) ==>
              !Recoverable(table, data)
    ensures var back := ReadAll(table, there);
            && winner in back && loser in back && back[winner] == data[winner]
            && (back[loser] == data[loser] <==>
                  table[loser].from(table[winner].to(data[winner]).value) == Some(data[loser]))
  {
    assert Mapped(table, there, winner) && Mapped(table, there, loser) && Lands(table, data, winner, loser);
  }
}
