/** The environment of the data structures: one document that holds a JSON array, and the
    key-value and subdocument operations the client sends to it.  Every operation is atomic. */
module Server {
  import opened Sequences

  datatype Json =
    | Null
    | Boolean(b: bool)
    | Number(n: real)
    | Text(s: string)
    | Array(items: seq<Json>)
    | Object(fields: seq<(string, Json)>)

  type Cas = nat

  datatype Document = Missing | Present(cas: Cas, items: seq<Json>)

  /** A successful mutation: the call that made it, and whether it only created an empty document. */
  datatype Write = Write(call: nat, created: bool)

  /** versions, highest and writes are history: the contents installed under every CAS ever used,
      a bound on those CAS values, and who made each successful mutation, in order. */
  datatype Server = Server(doc: Document, versions: map<Cas, seq<Json>>, highest: Cas, writes: seq<Write>)

  const Fresh := Server(Missing, map[], 0, [])

  /** '[i]' is Path(i); '[-1]', the last element, is Path(-1). */
  datatype Spec = ArrayPrepend(v: Json) | ArrayAddUnique(v: Json) | RemovePath(path: int)

  datatype Request =
    | LookupLast
    | GetDocument
    | MutateIn(spec: Spec, cas: Cas)
    | InsertEmpty
    | RemoveDocument
    | ReadClock
    | NoRequest

  datatype Reply =
    | Ok
    | Found(value: Json, cas: Cas)
    | Contents(items: seq<Json>, cas: Cas)
    | CasMismatch
    | PathNotFound
    | PathExists
    | DocumentNotFound
    | DocumentExists
    | Expired(expired: bool)

  /** What the environment may choose at a step: the next CAS, how a guarded mutation of a missing
      document and a lookup of a missing '[-1]' are answered, and what the clock says. */
  datatype Choice = Choice(cas: Cas, mismatchIfMissing: bool, nullIfEmpty: bool, expired: bool)

  function ContentsOf(doc: Document): seq<Json> {
    if doc.Missing? then [] else doc.items
  }

  /** The CAS of a successful mutation: the environment's choice unless it was used before or is zero. */
  function NextCas(s: Server, wanted: Cas): Cas {
    if wanted != 0 && wanted !in s.versions then wanted else s.highest + 1
  }

  function Install(s: Server, caller: nat, items: seq<Json>, created: bool, wanted: Cas): Server {
    var cas := NextCas(s, wanted);
    Server(Present(cas, items), s.versions[cas := items],
           if cas > s.highest then cas else s.highest, s.writes + [Write(caller, created)])
  }

  datatype Applied = Changed(items: seq<Json>) | Refused(reply: Reply)

  function ApplySpec(items: seq<Json>, spec: Spec): Applied {
    match spec
    case ArrayPrepend(v) => Changed([v] + items)
    case ArrayAddUnique(v) => if v in items then Refused(PathExists) else Changed(items + [v])
    case RemovePath(path) =>
      var i := if path == -1 then |items| - 1 else path;
      if 0 <= i < |items| then Changed(RemoveAt(items, i)) else Refused(PathNotFound)
  }

  function Mutate(s: Server, caller: nat, spec: Spec, cas: Cas, choice: Choice): (Server, Reply) {
    match s.doc
    case Missing => (s, if cas != 0 && choice.mismatchIfMissing then CasMismatch else DocumentNotFound)
    case Present(current, items) =>
      if cas != 0 && cas != current then (s, CasMismatch)
      else
        match ApplySpec(items, spec)
        case Changed(items') => (Install(s, caller, items', false, choice.cas), Ok)
        case Refused(reply) => (s, reply)
  }

  function Serve(s: Server, caller: nat, request: Request, choice: Choice): (Server, Reply) {
    match request
    case LookupLast =>
      (s, match s.doc
          case Missing => DocumentNotFound
          case Present(cas, items) =>
            if items != [] then Found(Last(items), cas)
            else if choice.nullIfEmpty then Found(Null, cas) else PathNotFound)
    case GetDocument =>
      (s, if s.doc.Missing? then DocumentNotFound else Contents(s.doc.items, s.doc.cas))
    case MutateIn(spec, cas) => Mutate(s, caller, spec, cas, choice)
    case InsertEmpty =>
      if s.doc.Present? then (s, DocumentExists) else (Install(s, caller, [], true, choice.cas), Ok)
    case RemoveDocument =>
      if s.doc.Missing? then (s, DocumentNotFound)
      else (s.(doc := Missing, writes := s.writes + [Write(caller, false)]), Ok)
    case ReadClock => (s, Expired(choice.expired))
    case NoRequest => (s, Ok)
  }

  /** The replies a request can meet. */
  predicate Answers(request: Request, reply: Reply) {
    match request
    case LookupLast => reply.Found? || reply.PathNotFound? || reply.DocumentNotFound?
    case GetDocument => reply.Contents? || reply.DocumentNotFound?
    case MutateIn(spec, cas) =>
      || reply.Ok? || reply.DocumentNotFound?
      || (reply.CasMismatch? && cas != 0)
      || (reply.PathExists? && spec.ArrayAddUnique?)
      || (reply.PathNotFound? && spec.RemovePath?)
    case InsertEmpty => reply.Ok? || reply.DocumentExists?
    case RemoveDocument => reply.Ok? || reply.DocumentNotFound?
    case ReadClock => reply.Expired?
    case NoRequest => reply.Ok?
  }

  /** Every CAS in use is nonzero and names the contents it was installed with. */
  ghost predicate Consistent(s: Server) {
    && (forall c :: c in s.versions ==> 0 < c <= s.highest)
    && (s.doc.Present? ==> s.doc.cas in s.versions && s.versions[s.doc.cas] == s.doc.items)
  }

  /** A request adds at most one write, its caller's; without one the document is unchanged; a write that
      leaves a document gives it a CAS never used before; and no version is ever forgotten. */
  ghost predicate Follows(s: Server, s': Server, caller: nat) {
    && (s'.writes == s.writes ==> s' == s)
    && (s'.writes == s.writes || (|s'.writes| == |s.writes| + 1 && s'.writes[..|s.writes|] == s.writes
                                  && s'.writes[|s.writes|].call == caller))
    && (s'.writes != s.writes && s'.doc.Present? ==> s'.doc.cas != 0 && s'.doc.cas !in s.versions)
    && (forall c :: c in s.versions ==> c in s'.versions && s'.versions[c] == s.versions[c])
  }

  lemma ServeFollows(s: Server, caller: nat, request: Request, choice: Choice)
    requires Consistent(s)
    ensures var s' := Serve(s, caller, request, choice).0; Consistent(s') && Follows(s, s', caller)
  {
    var s' := Serve(s, caller, request, choice).0;
    var cas := NextCas(s, choice.cas);
    assert cas !in s.versions && cas != 0;
    if |s'.writes| == |s.writes| + 1 {
      assert s'.writes != s.writes;
    }
  }
}
