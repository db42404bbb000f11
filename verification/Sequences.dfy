/** Sequence vocabulary shared by the models. */
module Sequences {

  datatype Option<+T> = None | Some(value: T)

  function Last<T>(s: seq<T>): T
    requires s != []
  {
    s[|s| - 1]
  }

  function Front<T>(s: seq<T>): seq<T>
    requires s != []
  {
    s[..|s| - 1]
  }

  function Reversed<T>(s: seq<T>): (r: seq<T>)
    ensures |r| == |s|
  {
    if s == [] then [] else Reversed(s[1..]) + [s[0]]
  }

  /** Dropping the last element of an array drops the first of its reversal. */
  lemma {:induction false} ReversedFront<T>(s: seq<T>)
    requires s != []
    ensures Reversed(s) == [Last(s)] + Reversed(Front(s))
  {
    if |s| == 1 {
      assert s[1..] == [];
    } else {
      ReversedFront(s[1..]);
      assert Front(s)[1..] == Front(s[1..]);
    }
  }

  lemma {:induction false} ReversedAt<T>(s: seq<T>, k: nat)
    requires k < |s|
    ensures Reversed(s)[k] == s[|s| - 1 - k]
  {
    if k < |s| - 1 {
      ReversedAt(s[1..], k);
    }
  }

  lemma ReversedTwice<T>(s: seq<T>)
    ensures Reversed(Reversed(s)) == s
  {
    forall k | 0 <= k < |s|
      ensures Reversed(Reversed(s))[k] == s[k]
    {
      ReversedAt(Reversed(s), k);
      ReversedAt(s, |s| - 1 - k);
    }
  }

  /** The first index holding v, or -1. */
  function IndexOf<T(==)>(s: seq<T>, v: T): (i: int)
    ensures -1 <= i < |s|
    ensures i >= 0 ==> s[i] == v && v !in s[..i]
    ensures i < 0 <==> v !in s
  {
    if s == [] then -1
    else if s[0] == v then 0
    else
      var rest := IndexOf(s[1..], v);
      assert rest >= 0 ==> s[..rest + 1] == [s[0]] + s[1..][..rest];
      if rest < 0 then -1 else rest + 1
  }

  function RemoveAt<T>(s: seq<T>, i: nat): seq<T>
    requires i < |s|
  {
    s[..i] + s[i + 1..]
  }

  /** s without the first occurrence of v, if there is one. */
  function Without<T(==)>(s: seq<T>, v: T): seq<T>
  {
    var i := IndexOf(s, v);
    if i < 0 then s else RemoveAt(s, i)
  }

  ghost predicate NoDuplicates<T>(s: seq<T>) {
    forall i, j :: 0 <= i < j < |s| ==> s[i] != s[j]
  }

  function Elements<T>(s: seq<T>): set<T> {
    set x | x in s
  }
}
