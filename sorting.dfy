/** Go's string order and a stable sort by a string key, the behaviour of
    `sort.SliceStable` with a `less` that compares one string field. */
module Sorting {

  /** `a < b` on Go strings: lexicographic order on the characters. */
  predicate Less(a: string, b: string)
    decreases |a|
  {
    |b| > 0 && (|a| == 0 || a[0] < b[0] || (a[0] == b[0] && Less(a[1..], b[1..])))
  }

  /** No string is below itself. */
  lemma {:induction false} LessIrreflexive(a: string)
    ensures !Less(a, a)
    decreases |a|
  {
    if |a| > 0 {
      LessIrreflexive(a[1..]);
    }
  }

  /** The order is asymmetric. */
  lemma {:induction false} LessAsymmetric(a: string, b: string)
    requires Less(a, b)
    ensures !Less(b, a)
    decreases |a|
  {
    if |a| > 0 && a[0] == b[0] {
      LessAsymmetric(a[1..], b[1..]);
    }
  }

  /** Any two different strings are ordered one way or the other. */
  lemma {:induction false} LessTotal(a: string, b: string)
    requires a != b
    ensures Less(a, b) || Less(b, a)
    decreases |a|
  {
    if |a| > 0 && |b| > 0 && a[0] == b[0] {
      assert a == [a[0]] + a[1..] && b == [b[0]] + b[1..];
      LessTotal(a[1..], b[1..]);
    }
  }

  /** "Not below" is transitive: if `a <= b` and `b <= c` then `a <= c`. */
  lemma {:induction false} NotLessTransitive(a: string, b: string, c: string)
    requires !Less(b, a) && !Less(c, b)
    ensures !Less(c, a)
    decreases |a|
  {
    if |a| > 0 && |b| > 0 && |c| > 0 && a[0] == b[0] && b[0] == c[0] {
      NotLessTransitive(a[1..], b[1..], c[1..]);
    }
  }

  /** `s` is ordered by `key`: no later element's key is below an earlier one's. */
  ghost predicate SortedBy<T>(s: seq<T>, key: T -> string) {
    forall i, j :: 0 <= i < j < |s| ==> !Less(key(s[j]), key(s[i]))
  }

  /** The elements of `s` whose key is `k`, in their order in `s`. */
  function WithKey<T>(s: seq<T>, key: T -> string, k: string): seq<T>
    decreases |s|
  {
    if s == [] then []
    else (if key(s[0]) == k then [s[0]] else []) + WithKey(s[1..], key, k)
  }

  lemma WithKeyCons<T>(y: T, s: seq<T>, key: T -> string, k: string)
    ensures WithKey([y] + s, key, k) == (if key(y) == k then [y] else []) + WithKey(s, key, k)
  {
    assert ([y] + s)[1..] == s;
  }

  /** An element whose key is not above the first key of a sorted sequence
      can go in front of it. */
  lemma SortedCons<T>(x: T, r: seq<T>, key: T -> string)
    requires SortedBy(r, key)
    requires r == [] || !Less(key(r[0]), key(x))
    ensures SortedBy([x] + r, key)
  {
    var out := [x] + r;
    forall i, j | 0 <= i < j < |out|
      ensures !Less(key(out[j]), key(out[i]))
    {
      if i == 0 {
        assert out[j] == r[j - 1];
        if j > 1 {
          NotLessTransitive(key(x), key(r[0]), key(r[j - 1]));
        }
      } else {
        assert out[i] == r[i - 1] && out[j] == r[j - 1];
      }
    }
  }

  /** Every element of `rest` is an element of `r` or `x` itself. */
  lemma KeysAbove<T>(y: T, x: T, r: seq<T>, rest: seq<T>, key: T -> string)
    requires SortedBy([y] + r, key)
    requires !Less(key(x), key(y))
    requires multiset(rest) == multiset(r) + multiset{x}
    ensures forall j :: 0 <= j < |rest| ==> !Less(key(rest[j]), key(y))
  {
    forall j | 0 <= j < |rest|
      ensures !Less(key(rest[j]), key(y))
    {
      assert rest[j] in multiset(rest);
      if rest[j] != x {
        assert rest[j] in multiset(r);
        var m :| 0 <= m < |r| && r[m] == rest[j];
        assert ([y] + r)[0] == y && ([y] + r)[m + 1] == rest[j];
      }
    }
  }

  /** Putting `x` in front adds it to the group of its own key, in front. */
  lemma WithKeyFront<T>(x: T, r: seq<T>, key: T -> string)
    ensures forall k :: WithKey([x] + r, key, k)
                        == (if key(x) == k then [x] else []) + WithKey(r, key, k)
  {
    forall k {
      WithKeyCons(x, r, key, k);
    }
  }

  /** Passing over `y`, whose key is below that of `x`, leaves `y` in front
      of every group, and of `x` in particular. */
  lemma WithKeyBehind<T>(x: T, y: T, r: seq<T>, rest: seq<T>, key: T -> string)
    requires Less(key(y), key(x))
    requires forall k :: WithKey(rest, key, k)
                         == (if key(x) == k then [x] else []) + WithKey(r, key, k)
    ensures forall k :: WithKey([y] + rest, key, k)
                        == (if key(x) == k then [x] else []) + WithKey([y] + r, key, k)
  {
    forall k
      ensures WithKey([y] + rest, key, k)
              == (if key(x) == k then [x] else []) + WithKey([y] + r, key, k)
    {
      WithKeyBehindAt(x, y, r, rest, key, k);
    }
  }

  /** WithKeyBehind for one key. */
  lemma WithKeyBehindAt<T>(x: T, y: T, r: seq<T>, rest: seq<T>, key: T -> string, k: string)
    requires Less(key(y), key(x))
    requires WithKey(rest, key, k) == (if key(x) == k then [x] else []) + WithKey(r, key, k)
    ensures WithKey([y] + rest, key, k) == (if key(x) == k then [x] else []) + WithKey([y] + r, key, k)
  {
    WithKeyCons(y, rest, key, k);
    WithKeyCons(y, r, key, k);
    if key(x) == k {
      LessIrreflexive(k);
    }
  }

  /** `x` placed in front of the first element of `r` whose key is not below
      its own, so that it comes before every element with the same key. */
  function Insert<T>(x: T, r: seq<T>, key: T -> string): (out: seq<T>)
    requires SortedBy(r, key)
    ensures SortedBy(out, key)
    ensures multiset(out) == multiset(r) + multiset{x}
    ensures forall k :: WithKey(out, key, k)
                        == (if key(x) == k then [x] else []) + WithKey(r, key, k)
    decreases |r|
  {
    if r == [] || !Less(key(r[0]), key(x)) then
      SortedCons(x, r, key);
      WithKeyFront(x, r, key);
      [x] + r
    else
      var y, tail := r[0], r[1..];
      assert r == [y] + tail;
      var rest := Insert(x, tail, key);
      LessAsymmetric(key(y), key(x));
      KeysAbove(y, x, tail, rest, key);
      SortedCons(y, rest, key);
      WithKeyBehind(x, y, tail, rest, key);
      [y] + rest
  }

  /** A stable sort of `s` by `key`: ordered by key, the same elements, and
      elements sharing a key in their original order. */
  function SortBy<T>(s: seq<T>, key: T -> string): (r: seq<T>)
    ensures SortedBy(r, key)
    ensures multiset(r) == multiset(s)
    ensures forall k :: WithKey(r, key, k) == WithKey(s, key, k)
    decreases |s|
  {
    if s == [] then []
    else
      var r := Insert(s[0], SortBy(s[1..], key), key);
      assert s == [s[0]] + s[1..];
      r
  }

  /** The identity on strings, for sorting strings by themselves. */
  function Identity(s: string): string {
    s
  }

  /** Strings in ascending order. */
  function SortStrings(s: seq<string>): (r: seq<string>)
    ensures multiset(r) == multiset(s)
    ensures forall i, j :: 0 <= i < j < |r| ==> !Less(r[j], r[i])
  {
    SortBy(s, Identity)
  }
}
