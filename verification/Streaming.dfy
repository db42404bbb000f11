/** A streamed analytics query: the response callback puts rows, a marker and the metadata on a queue;
    the request object iterates over them.  Puts and gets interleave arbitrarily, and a get that finds
    the queue empty for too long times out, which next() reports as StopIteration. */
module Streaming {
  import opened Sequences

  datatype Item = Row(bytes: string) | NoneMarker | Metadata(meta: string) | Error(message: string)

  /** The metadata object of a response may fail to be built. */
  datatype Response = Failed(message: string) | Rows(rows: seq<string>, meta: Option<string>)

  const UNABLE_TO_BUILD := "Analytics operation error."

  function RowItems(rows: seq<string>): (items: seq<Item>)
    ensures |items| == |rows|
    ensures forall i :: 0 <= i < |rows| ==> items[i] == Row(rows[i])
  {
    seq(|rows|, i requires 0 <= i < |rows| => Row(rows[i]))
  }

  function Produced(response: Response): seq<Item> {
    match response
    case Failed(message) => [Error(message)]
    case Rows(rows, None) => RowItems(rows) + [Error(UNABLE_TO_BUILD)]
    case Rows(rows, Some(meta)) => RowItems(rows) + [NoneMarker, Metadata(meta)]
  }

  /** create_analytics_result: the puts it makes, in order. */
  method CreateAnalyticsResult(response: Response) returns (puts: seq<Item>)
    ensures puts == Produced(response)
  {
    puts := [];
    if response.Failed? { return [Error(response.message)]; }
    for i := 0 to |response.rows|
      invariant puts == RowItems(response.rows)[..i]
    {
      puts := puts + [Row(response.rows[i])];
    }
    if response.meta.None? { return puts + [Error(UNABLE_TO_BUILD)]; }
    puts := puts + [NoneMarker] + [Metadata(response.meta.value)];
  }

  /** The queue between the two threads.  Before the k-th get gives up, arrivals(k) more of the
      producer's puts happen. */
  class StreamedResult {
    const arrivals: nat -> nat
    var pending: seq<Item>
    var rows: seq<Item>
    var gets: nat
    /** What the gets answered (None for a timeout), and the items among those answers. */
    ghost var answers: seq<Option<Item>>
    ghost var taken: seq<Item>

    constructor (arrivals: nat -> nat)
      ensures this.arrivals == arrivals && pending == rows == [] && answers == [] && taken == []
    {
      this.arrivals := arrivals;
      pending, rows, gets, answers, taken := [], [], 0, [], [];
    }

    /** All that is ever produced, in order. */
    ghost function All(): seq<Item>
      reads this
    {
      taken + rows + pending
    }

    method Open(puts: seq<Item>)
      modifies this
      ensures All() == old(All()) + puts && answers == old(answers) && taken == old(taken)
    {
      pending := pending + puts;
    }

    method Next() returns (item: Option<Item>)
      modifies this
      ensures All() == old(All()) && answers == old(answers) + [item]
      ensures taken == old(taken) + (if item.Some? then [item.value] else [])
    {
      var n := if arrivals(gets) < |pending| then arrivals(gets) else |pending|;
      rows, pending := rows + pending[..n], pending[n..];
      gets := gets + 1;
      if rows == [] {
        item := None;
      } else {
        item := Some(rows[0]);
        taken := taken + [rows[0]];
        rows := rows[1..];
      }
      answers := answers + [item];
    }
  }

  /** No two timeouts in a row, and none right after the marker. */
  ghost predicate Patient(answers: seq<Option<Item>>) {
    forall k :: 0 < k < |answers| ==> InTime(answers, k)
  }

  ghost predicate InTime(answers: seq<Option<Item>>, k: nat)
    requires 0 < k < |answers|
  {
    answers[k].None? ==> answers[k - 1].Some? && answers[k - 1] != Some(NoneMarker)
  }

  datatype NextRow<V> = Yield(row: Option<V>) | StopIteration | Raised(message: string) | InternalError

  class AnalyticsRequest<V> {
    const response: Response
    const deserialize: string -> V
    const stream: StreamedResult
    var startedStreaming: bool
    var doneStreaming: bool
    var metadata: Option<string>
    var submissions: nat

    constructor (response: Response, deserialize: string -> V, stream: StreamedResult)
      ensures this.response == response && this.deserialize == deserialize && this.stream == stream
      ensures !startedStreaming && !doneStreaming && metadata.None? && submissions == 0
    {
      this.response, this.deserialize, this.stream := response, deserialize, stream;
      startedStreaming, doneStreaming, metadata, submissions := false, false, None, 0;
    }

    /** __iter__; false is AlreadyQueriedException. */
    method Iter() returns (ok: bool)
      modifies this, stream
      ensures ok == !old(doneStreaming) && doneStreaming == old(doneStreaming) && metadata == old(metadata)
      ensures startedStreaming == (old(startedStreaming) || ok)
      ensures var submits := ok && !old(startedStreaming);
              && submissions == old(submissions) + (if submits then 1 else 0)
              && stream.All() == old(stream.All()) + (if submits then Produced(response) else [])
              && stream.taken == old(stream.taken) && stream.answers == old(stream.answers)
    {
      if doneStreaming { return false; }
      if !startedStreaming {
        startedStreaming := true;
        submissions := submissions + 1;
        var puts := CreateAnalyticsResult(response);
        stream.Open(puts);
      }
      return true;
    }

    /** _get_metadata; StopIteration is its normal return, after which __next__ re-raises it. */
    method GetMetadata() returns (r: NextRow<V>)
      modifies this`metadata, stream
      ensures stream.All() == old(stream.All()) && |stream.answers| == |old(stream.answers)| + 1
      ensures var item := Last(stream.answers);
              && stream.answers == old(stream.answers) + [item]
              && stream.taken == old(stream.taken) + (if item.Some? then [item.value] else [])
              && (r.StopIteration? <==> item.Some? && item.value.Metadata?)
              && (r.StopIteration? ==> metadata == Some(item.value.meta))
              && (!r.StopIteration? ==> metadata == old(metadata) && r == Refused(item))
    {
      var item := stream.Next();
      match item {
        case Some(Metadata(meta)) => metadata := Some(meta); r := StopIteration;
        case Some(Error(message)) => r := Raised(message);
        case _ => r := InternalError;  // next() timed out, or the item has no raw_result
      }
    }

    /** Whether an item that should not be there is an error of the query or one of the client. */
    ghost function Refused(item: Option<Item>): NextRow<V> {
      if item.Some? && item.value.Error? then Raised(item.value.message) else InternalError
    }

    /** __next__ around _get_next_row: a timeout is retried once. */
    method Next() returns (r: NextRow<V>)
      modifies this`doneStreaming, this`metadata, stream
      ensures old(doneStreaming) ==> r == Yield(None) && unchanged(stream) && doneStreaming && metadata == old(metadata)
      ensures stream.All() == old(stream.All()) && old(stream.answers) <= stream.answers
      ensures !old(doneStreaming) ==>
                Understood(old(stream.taken), stream.answers[|old(stream.answers)|..], r, old(metadata))
    {
      if doneStreaming { return Yield(None); }
      var item := stream.Next();
      if item.None? { item := stream.Next(); }
      match item {
        case Some(Error(message)) => return Raised(message);
        case Some(Row(bytes)) => return Yield(Some(deserialize(bytes)));
        case Some(Metadata(_)) => return InternalError;
        case _ =>  // the marker, or a second timeout
          doneStreaming := true;
          r := GetMetadata();
      }
    }

    /** How __next__ reads its answers: got are those of this call, was the items taken before it. */
    ghost predicate Understood(was: seq<Item>, got: seq<Option<Item>>, r: NextRow<V>, metadataBefore: Option<string>)
      reads this, stream
    {
      var late := |got| > 0 && got[0].None?;
      var first := if late then 1 else 0;
      && first < |got|
      && var item := got[first];
      && (doneStreaming <==> item.None? || item.value.NoneMarker?)
      && |got| == first + (if doneStreaming then 2 else 1)
      && stream.taken == was + (if item.Some? then [item.value] else [])
                         + (if doneStreaming && got[first + 1].Some? then [got[first + 1].value] else [])
      && (r.Yield? <==> item.Some? && item.value.Row?)
      && (r.Yield? ==> r.row == Some(deserialize(item.value.bytes)))
      && (item.Some? && item.value.Error? ==> r == Raised(item.value.message))
      && (r.StopIteration? <==> doneStreaming && got[first + 1].Some? && got[first + 1].value.Metadata?)
      && (r.StopIteration? ==> metadata == Some(got[first + 1].value.meta))
      && (!r.StopIteration? ==> metadata == metadataBefore)
      && (!r.StopIteration? && !r.Yield? ==> r == Refused(if doneStreaming then got[first + 1] else item))
    }
  
    /** The query is running, its first n rows and nothing else were taken, and no get was late twice. */
    ghost predicate Ready(n: nat)
      reads this, stream
    {
      && !doneStreaming && metadata.None? && stream.All() == Produced(response)
      && |stream.taken| == n <= |RowsOf(response)| && Patient(stream.answers) && Settled(stream.answers)
    }

    /** How __next__ ends when it met item n of what was produced. */
    ghost predicate Ended(r: NextRow<V>, n: nat)
      reads this, stream
    {
      var built := response.Rows? && response.meta.Some?;
      && n <= |RowsOf(response)|
      && (r.Yield? ==> n < |RowsOf(response)| && r.row == Some(deserialize(RowsOf(response)[n])) && Ready(n + 1))
      && (r.StopIteration? ==> built && n == |response.rows| && Patient(stream.answers)
                               && doneStreaming && metadata == response.meta && stream.taken == Produced(response))
      && (!r.Yield? && !r.StopIteration? ==>
            if built then !Patient(stream.answers)
            else Patient(stream.answers) ==>
                   && n == |RowsOf(response)|
                   && r == Raised(if response.Failed? then response.message else UNABLE_TO_BUILD))
    }

    /** Iterating to the end, as execute does.  However the puts and gets interleave, and whatever times
        out, it either raises or lists exactly the deserialized rows, in order, having read the metadata
        after the marker and everything else before.  For a response that was built it lists them iff no
        get timed out twice in a row or right after the marker; a patient reader of any other response
        gets its error, before any row if the server failed. */
    method Execute() returns (listing: Listing<V>, ghost yielded: seq<V>)
      requires !startedStreaming && !doneStreaming && metadata.None? && submissions == 0
      requires stream.All() == [] && stream.answers == []
      modifies this, stream
      ensures submissions == 1
      ensures listing.Listed? ==>
                && response.Rows? && response.meta.Some? && metadata == response.meta && doneStreaming
                && |listing.rows| == |response.rows| && stream.taken == Produced(response)
                && (forall i :: 0 <= i < |listing.rows| ==> listing.rows[i] == deserialize(response.rows[i]))
      ensures yielded != [] ==>
                && response.Rows? && |yielded| <= |response.rows|
                && (forall i :: 0 <= i < |yielded| ==> yielded[i] == deserialize(response.rows[i]))
      ensures response.Rows? && response.meta.Some? ==> (listing.Listed? <==> Patient(stream.answers))
      ensures Patient(stream.answers) && !(response.Rows? && response.meta.Some?) ==>
                && listing == ListRaised(Raised(if response.Failed? then response.message
                                                else "Analytics operation error."))
                && (response.Rows? ==> |yielded| == |response.rows|)
      ensures response.Failed? ==> !listing.Listed? && yielded == []
    {
      Submit();
      var rows, r;
      ghost var n;
      rows, r, n := Drain();
      yielded := rows;
      listing := if r.StopIteration? then Listed(rows) else ListRaised(r);
    }

    method Submit()
      requires !startedStreaming && !doneStreaming && metadata.None? && submissions == 0
      requires stream.All() == [] && stream.answers == []
      modifies this, stream
      ensures Ready(0) && submissions == 1
    {
      var _ := Iter();
      assert stream.taken == [] && stream.All() == Produced(response);
    }

    /** The loop over __next__. */
    method Drain() returns (rows: seq<V>, r: NextRow<V>, ghost n: nat)
      requires Ready(0)
      modifies this`doneStreaming, this`metadata, stream
      ensures n <= |RowsOf(response)| && rows == Deserialized(n) && !r.Yield? && Ended(r, n)
    {
      rows, n := [], 0;
      r := Fetch(n);
      while r.Yield?
        invariant n <= |RowsOf(response)| && rows == Deserialized(n) && Ended(r, n)
        decreases |RowsOf(response)| - n
      {
        rows, n := rows + [r.row.value], n + 1;
        r := Fetch(n);
      }
    }

    method Fetch(ghost n: nat) returns (r: NextRow<V>)
      requires Ready(n)
      modifies this`doneStreaming, this`metadata, stream
      ensures Ended(r, n)
    {
      ghost var was, answers := stream.taken, stream.answers;
      r := Next();
      ghost var got := stream.answers[|answers|..];
      assert stream.answers == answers + got;
      NextItems(n, got, r, was);
      PatientSplit(answers, got);
    }

    /** Which of the produced items one call of __next__ met, when k rows were taken before it. */
    lemma NextItems(k: nat, got: seq<Option<Item>>, r: NextRow<V>, was: seq<Item>)
      requires |was| == k <= |RowsOf(response)| && stream.All() == Produced(response)
      requires Understood(was, got, r, None)
      ensures r.Yield? ==> k < |RowsOf(response)| && r.row == Some(deserialize(RowsOf(response)[k])) && !doneStreaming
                           && |stream.taken| == k + 1 && Patient(got) && Settled(got)
      ensures r.StopIteration? ==> response.Rows? && response.meta.Some? && k == |response.rows| && Patient(got)
                                   && metadata == response.meta && stream.taken == Produced(response)
      ensures r.Raised? || r.InternalError? ==>
                if response.Rows? && response.meta.Some? then !Patient(got)
                else Patient(got) ==> k == |RowsOf(response)|
                                      && r == Raised(if response.Failed? then response.message else UNABLE_TO_BUILD)
    {
      var all := Produced(response);
      var first := if got[0].None? then 1 else 0;
      var item := got[first];
      assert stream.taken == all[..|stream.taken|];
      PatientShort(got);
      if item.Some? {
        assert item.value == stream.taken[k] == all[k];
        if doneStreaming && got[first + 1].Some? {
          assert got[first + 1].value == stream.taken[k + 1] == all[k + 1];
        }
      } else {
        assert got[1].None?;
        if got[2].Some? { assert got[2].value == stream.taken[k] == all[k]; }
      }
    }

    /** The first n rows, deserialized. */
    function Deserialized(n: nat): (rows: seq<V>)
      requires n <= |RowsOf(response)|
      ensures |rows| == n && forall i :: 0 <= i < n ==> rows[i] == deserialize(RowsOf(response)[i])
    {
      if n == 0 then [] else Deserialized(n - 1) + [deserialize(RowsOf(response)[n - 1])]
    }
  }

  datatype Listing<V> = Listed(rows: seq<V>) | ListRaised(r: NextRow<V>)

  function RowsOf(response: Response): seq<string> {
    if response.Rows? then response.rows else []
  }

  /** The last answer was an item other than the marker. */
  ghost predicate Settled(answers: seq<Option<Item>>) {
    answers == [] || (Last(answers).Some? && Last(answers) != Some(NoneMarker))
  }

  lemma PatientShort(got: seq<Option<Item>>)
    requires 1 <= |got| <= 3
    ensures Patient(got) <==> (|got| > 1 ==> InTime(got, 1)) && (|got| > 2 ==> InTime(got, 2))
  {
  }

  lemma PatientSplit(a: seq<Option<Item>>, b: seq<Option<Item>>)
    requires Patient(a) && Settled(a)
    ensures Patient(a + b) <==> Patient(b)
    ensures b != [] && Settled(b) ==> Settled(a + b)
  {
    forall k | 0 < k < |b|
      ensures InTime(b, k) <==> InTime(a + b, |a| + k)
    {
      assert (a + b)[|a| + k] == b[k] && (a + b)[|a| + k - 1] == b[k - 1];
    }
    forall k | 0 < k <= |a| && k < |a + b|
      ensures InTime(a + b, k)
    {
      if k < |a| { assert InTime(a, k); }
    }
    if Patient(b) {
      forall k | 0 < k < |a + b| ensures InTime(a + b, k) {
        if k > |a| { assert InTime(b, k - |a|); }
      }
    }
  }
}
