/** Optional values and results, standing in for Go's nil pointers and
    `(value, error)` returns. */
module Wrappers {

  /** A possibly-absent value: `None` plays the part of a nil pointer. */
  datatype Option<+T> = None | Some(value: T)

  /** The outcome of an operation that either yields a value or fails. */
  datatype Result<+T, +E> = Success(value: T) | Failure(error: E)

  /** The elements of an optional value, as a sequence of zero or one. */
  function OptionToSeq<T>(o: Option<T>): (r: seq<T>)
    ensures o.None? ==> r == []
    ensures o.Some? ==> r == [o.value]
  {
    match o
    case None => []
    case Some(v) => [v]
  }

  /** The position of the first element of `xs` that satisfies `p`, if
      any: every earlier element fails `p`. */
  function FirstIndex<T>(xs: seq<T>, p: T -> bool): (k: Option<nat>)
    ensures k.Some? ==> k.value < |xs| && p(xs[k.value])
    ensures k.Some? ==> forall j :: 0 <= j < k.value ==> !p(xs[j])
    ensures k.None? <==> forall j :: 0 <= j < |xs| ==> !p(xs[j])
    decreases |xs|
  {
    if xs == [] then None
    else if p(xs[0]) then Some(0)
    else match FirstIndex(xs[1..], p)
      case None => None
      case Some(k) => Some(k + 1)
  }

  /** `f` applied to each element, in order. */
  function MapSeq<A, B>(f: A -> B, xs: seq<A>): (r: seq<B>)
    ensures |r| == |xs|
    decreases |xs|
  {
    if xs == [] then [] else MapSeq(f, xs[..|xs| - 1]) + [f(xs[|xs| - 1])]
  }

  /** Each element of the mapped sequence is the image of the element at
      the same position. */
  lemma {:induction false} MapSeqAt<A, B>(f: A -> B, xs: seq<A>, i: nat)
    requires i < |xs|
    ensures MapSeq(f, xs)[i] == f(xs[i])
    decreases |xs|
  {
    var n := |xs| - 1;
    if i < n {
      MapSeqAt(f, xs[..n], i);
    }
  }

  /** Mapping a prefix one element longer appends that element's image. */
  lemma MapSeqSnoc<A, B>(f: A -> B, xs: seq<A>, i: nat)
    requires i < |xs|
    ensures MapSeq(f, xs[..i + 1]) == MapSeq(f, xs[..i]) + [f(xs[i])]
  {
    assert xs[..i + 1][..i] == xs[..i];
  }

  /** A sequence whose every element is the image of the element of `xs`
      at the same position is the mapped sequence. */
  lemma MapSeqEq<A, B>(f: A -> B, xs: seq<A>, ys: seq<B>)
    requires |ys| == |xs|
    requires forall j :: 0 <= j < |xs| ==> ys[j] == f(xs[j])
    ensures ys == MapSeq(f, xs)
  {
    forall j | 0 <= j < |xs|
      ensures ys[j] == MapSeq(f, xs)[j]
    {
      MapSeqAt(f, xs, j);
    }
  }

  /** A non-empty sequence is its front followed by its last element. */
  lemma SnocLast<T>(s: seq<T>)
    requires s != []
    ensures s[..|s| - 1] + [s[|s| - 1]] == s
  {
  }

  /** A prefix one element longer is the shorter prefix and that element. */
  lemma TakeSnoc<T>(s: seq<T>, i: nat)
    requires i < |s|
    ensures s[..i + 1] == s[..i] + [s[i]]
  {
  }

  /** The prefix as long as the sequence is the sequence. */
  lemma TakeAll<T>(s: seq<T>, n: nat)
    requires n == |s|
    ensures s[..n] == s
  {
  }

  /** Past the front element, indexing goes into the rest. */
  lemma ConsAt<T>(x: T, s: seq<T>, i: nat)
    requires 0 < i <= |s|
    ensures ([x] + s)[i] == s[i - 1]
  {
  }

  lemma AppendAssoc<T>(a: seq<T>, b: seq<T>, c: seq<T>)
    ensures (a + b) + c == a + (b + c)
  {
  }
}
