/** The handful of Go string functions the domain layer relies on:
    `strings.Trim` with a one-character cutset, `strings.Split`,
    `strings.SplitN(s, sep, 2)`, `strings.Join`, `strconv.Atoi` and the
    decimal rendering of `%d`. */
module Text {
  import opened Wrappers

  /** Concatenation regroups freely. */
  lemma ConcatAssoc(a: string, b: string, c: string)
    ensures (a + b) + c == a + (b + c)
  {
  }

  // ---------------------------------------------------------------------
  // Trimming: strings.Trim(s, cutset) where cutset is a single character.

  /** `s` with every leading `c` removed. */
  function TrimLeft(s: string, c: char): (r: string)
    ensures |r| <= |s|
    ensures r != [] ==> r[0] != c
    decreases |s|
  {
    if s != [] && s[0] == c then TrimLeft(s[1..], c) else s
  }

  /** What TrimLeft removes is a run of `c`, and what it keeps is the rest. */
  lemma {:induction false} TrimLeftSuffix(s: string, c: char)
    ensures var r := TrimLeft(s, c);
            r == s[|s| - |r|..] && forall i :: 0 <= i < |s| - |r| ==> s[i] == c
    decreases |s|
  {
    if s != [] && s[0] == c {
      TrimLeftSuffix(s[1..], c);
    }
  }

  /** Trimming the end keeps the first character of what remains. */
  lemma {:induction false} TrimRightKeepsFirst(s: string, c: char)
    ensures TrimRight(s, c) != [] ==> TrimRight(s, c)[0] == s[0]
    decreases |s|
  {
    if s != [] && s[|s| - 1] == c {
      TrimRightKeepsFirst(s[..|s| - 1], c);
    }
  }

  /** `s` with every trailing `c` removed. */
  function TrimRight(s: string, c: char): (r: string)
    ensures |r| <= |s|
    ensures r != [] ==> r[|r| - 1] != c
    decreases |s|
  {
    if s != [] && s[|s| - 1] == c then TrimRight(s[..|s| - 1], c) else s
  }

  /** What TrimRight removes is a run of `c`, and what it keeps is the rest. */
  lemma {:induction false} TrimRightPrefix(s: string, c: char)
    ensures var r := TrimRight(s, c);
            r == s[..|r|] && forall i :: |r| <= i < |s| ==> s[i] == c
    decreases |s|
  {
    if s != [] && s[|s| - 1] == c {
      TrimRightPrefix(s[..|s| - 1], c);
    }
  }

  /** strings.Trim(s, string(c)): `s` without the run of `c` at either end. */
  function Trim(s: string, c: char): (r: string)
    ensures r == [] || (r[0] != c && r[|r| - 1] != c)
  {
    var left := TrimLeft(s, c);
    TrimRightKeepsFirst(left, c);
    TrimRight(left, c)
  }

  /** Trimming twice is trimming once: the trimmed fields of an already
      validated entity are left as they are by a second validation. */
  lemma TrimIdempotent(s: string, c: char)
    ensures Trim(Trim(s, c), c) == Trim(s, c)
  {
    var t := Trim(s, c);
    assert TrimLeft(t, c) == t;
    assert TrimRight(t, c) == t;
  }

  /** Trimming adds no character. */
  lemma TrimLacks(s: string, c: char, d: char)
    requires d !in s
    ensures d !in Trim(s, c)
  {
    var left := TrimLeft(s, c);
    TrimLeftSuffix(s, c);
    TrimRightPrefix(left, c);
    assert forall i :: 0 <= i < |left| ==> left[i] == s[|s| - |left| + i];
  }

  /** A string with no `c` at either end is its own trim. */
  lemma TrimNoop(s: string, c: char)
    requires s == [] || (s[0] != c && s[|s| - 1] != c)
    ensures Trim(s, c) == s
  {
    assert TrimLeft(s, c) == s;
    assert TrimRight(s, c) == s;
  }

  /** Removing the last character `c` of a string whose remainder does not
      end in `c`. */
  lemma TrimRightOne(s: string, c: char)
    requires s != [] && s[|s| - 1] != c
    ensures TrimRight(s + [c], c) == s
  {
    var t := s + [c];
    assert t[..|t| - 1] == s;
    assert TrimRight(s, c) == s;
  }

  /** Trimming keeps a prefix that neither starts nor ends with `c`. */
  lemma TrimKeepsPrefix(h: string, rest: string, c: char)
    requires h != [] && h[0] != c && h[|h| - 1] != c
    ensures h <= Trim(h + rest, c)
  {
    var full := h + rest;
    assert full[0] == h[0];
    assert TrimLeft(full, c) == full;
    var r := TrimRight(full, c);
    TrimRightPrefix(full, c);
    assert full[|h| - 1] == h[|h| - 1];
    assert |r| >= |h|;
    assert r[..|h|] == full[..|h|] == h;
  }

  /** Trimming a string that neither starts nor ends with `c`, followed by
      one `c`, gives back the string. */
  lemma TrimOneTrailing(body: string, c: char)
    requires body != [] && body[0] != c && body[|body| - 1] != c
    ensures Trim(body + [c], c) == body
  {
    var full := body + [c];
    assert full[0] == body[0];
    assert TrimLeft(full, c) == full;
    TrimRightOne(body, c);
  }

  // ---------------------------------------------------------------------
  // Splitting and joining.

  /** Position of the first `c` in `s`. */
  function IndexOf(s: string, c: char): (k: nat)
    requires c in s
    ensures k < |s| && s[k] == c && c !in s[..k]
  {
    if s[0] == c then 0 else 1 + IndexOf(s[1..], c)
  }

  /** strings.Split(s, string(sep)): the pieces between occurrences of
      `sep`; there is always at least one piece and none contains `sep`. */
  function Split(s: string, sep: char): (parts: seq<string>)
    ensures |parts| >= 1
    ensures forall i :: 0 <= i < |parts| ==> sep !in parts[i]
    decreases |s|
  {
    if sep !in s then [s]
    else
      var k := IndexOf(s, sep);
      [s[..k]] + Split(s[k + 1..], sep)
  }

  /** strings.SplitN(s, string(sep), 2): the text before the first `sep`
      and, when there is one, the text after it. */
  function SplitOnce(s: string, sep: char): (parts: seq<string>)
    ensures |parts| == 1 || |parts| == 2
    ensures |parts| == 1 <==> sep !in s
    ensures sep !in parts[0]
    ensures |parts| == 1 ==> parts[0] == s
    ensures |parts| == 2 ==> parts[0] + [sep] + parts[1] == s
  {
    if sep !in s then [s]
    else
      var k := IndexOf(s, sep);
      assert s[..k] + [sep] + s[k + 1..] == s;
      [s[..k], s[k + 1..]]
  }

  /** Splitting once at the first `sep`, when the text before it has none. */
  lemma SplitOnceAt(a: string, b: string, sep: char)
    requires sep !in a
    ensures SplitOnce(a + [sep] + b, sep) == [a, b]
  {
    var s := a + [sep] + b;
    assert s[|a|] == sep;
    var k := IndexOf(s, sep);
    assert forall i :: 0 <= i < |a| ==> s[i] == a[i];
    assert k <= |a| by { assert s[..k + 1][|a|] == sep; }
    assert k == |a|;
    assert s[..k] == a;
    assert s[k + 1..] == b;
  }

  /** strings.Join(parts, sep). */
  function Join(parts: seq<string>, sep: string): string
  {
    if parts == [] then ""
    else if |parts| == 1 then parts[0]
    else parts[0] + sep + Join(parts[1..], sep)
  }

  /** Joining pieces one at a time from the front. */
  lemma JoinCons(p: string, tail: seq<string>, sep: string)
    requires tail != []
    ensures Join([p] + tail, sep) == p + sep + Join(tail, sep)
  {
    assert ([p] + tail)[1..] == tail;
  }

  /** Joining the pieces of a split with the same separator gives back the
      original string. */
  lemma {:induction false} JoinSplit(s: string, sep: char)
    ensures Join(Split(s, sep), [sep]) == s
    decreases |s|
  {
    if sep in s {
      var k := IndexOf(s, sep);
      var rest := s[k + 1..];
      JoinSplit(rest, sep);
      JoinCons(s[..k], Split(rest, sep), [sep]);
      assert s == s[..k] + [sep] + rest;
    }
  }

  /** Splitting a join of pieces that do not contain the separator gives
      back the pieces. */
  lemma {:induction false} SplitJoin(parts: seq<string>, sep: char)
    requires |parts| >= 1
    requires forall i :: 0 <= i < |parts| ==> sep !in parts[i]
    ensures Split(Join(parts, [sep]), sep) == parts
    decreases |parts|
  {
    if |parts| > 1 {
      var p := parts[0];
      var rest := Join(parts[1..], [sep]);
      var s := Join(parts, [sep]);
      assert s == p + [sep] + rest;
      assert s[|p|] == sep;
      assert s[..|p|] == p;
      assert sep in s;
      var k := IndexOf(s, sep);
      assert forall i :: 0 <= i < |p| ==> s[i] == p[i];
      assert k <= |p| by { assert s[..k + 1][|p|] == sep; }
      assert k == |p|;
      assert s[k + 1..] == rest;
      SplitJoin(parts[1..], sep);
      assert Split(s, sep) == [p] + Split(rest, sep);
    }
  }

  /** Splitting two separator-free pieces joined by the separator. */
  lemma SplitPair(a: string, b: string, sep: char)
    requires sep !in a && sep !in b
    ensures Split(a + [sep] + b, sep) == [a, b]
  {
    assert Join([a, b], [sep]) == a + [sep] + b by {
      assert [a, b][1..] == [b];
    }
    SplitJoin([a, b], sep);
  }

  /** A join ends where its last piece does, when that piece is not empty. */
  lemma {:induction false} JoinLast(parts: seq<string>, sep: string)
    requires |parts| >= 1 && parts[|parts| - 1] != ""
    ensures var j, p := Join(parts, sep), parts[|parts| - 1]; j != "" && j[|j| - 1] == p[|p| - 1]
    decreases |parts|
  {
    if |parts| > 1 {
      JoinLast(parts[1..], sep);
    }
  }

  // ---------------------------------------------------------------------
  // Decimal numbers: strconv.Atoi and %d.

  predicate IsDigit(c: char) {
    '0' <= c <= '9'
  }

  predicate AllDigits(s: string) {
    forall i :: 0 <= i < |s| ==> IsDigit(s[i])
  }

  function DigitValue(c: char): nat
    requires IsDigit(c)
  {
    (c as int) - ('0' as int)
  }

  /** A string of digits holds no character that is not a digit. */
  lemma DigitsLack(s: string, c: char)
    requires AllDigits(s) && !IsDigit(c)
    ensures c !in s
  {
  }

  /** The value of a string of decimal digits, read most significant first. */
  function DigitsValue(s: string): nat
    requires AllDigits(s)
    decreases |s|
  {
    if s == [] then 0
    else DigitsValue(s[..|s| - 1]) * 10 + DigitValue(s[|s| - 1])
  }

  /** strconv.Atoi, range errors aside: an optional sign followed by one or
      more ASCII digits; anything else is a syntax error (`None`). */
  function Atoi(s: string): Option<int>
  {
    if s != [] && (s[0] == '+' || s[0] == '-') then
      var digits := s[1..];
      if digits != [] && AllDigits(digits) then
        var v: int := DigitsValue(digits);
        Some(if s[0] == '-' then -v else v)
      else None
    else if s != [] && AllDigits(s) then Some(DigitsValue(s))
    else None
  }

  /** The text strconv.Atoi's syntax error renders as. */
  function AtoiError(s: string): string {
    "strconv.Atoi: parsing \"" + s + "\": invalid syntax"
  }

  function DigitChar(d: nat): (c: char)
    requires d < 10
    ensures IsDigit(c) && DigitValue(c) == d
  {
    (('0' as int) + d) as char
  }

  /** The decimal digits of `n`, without leading zeros. */
  function NatToString(n: nat): (s: string)
    ensures s != [] && AllDigits(s)
    decreases n
  {
    if n < 10 then [DigitChar(n)]
    else NatToString(n / 10) + [DigitChar(n % 10)]
  }

  /** The digits NatToString writes read back as the number. */
  lemma {:induction false} NatToStringValue(n: nat)
    ensures DigitsValue(NatToString(n)) == n
    decreases n
  {
    if n >= 10 {
      NatToStringValue(n / 10);
      var s := NatToString(n);
      assert s[..|s| - 1] == NatToString(n / 10);
    }
  }

  /** `fmt.Sprintf("%d", n)`. */
  function IntToString(n: int): (s: string)
    ensures s != []
    ensures n >= 0 ==> AllDigits(s)
  {
    if n < 0 then "-" + NatToString(-n) else NatToString(n)
  }

  /** Atoi reads back what %d writes. */
  lemma AtoiIntToString(n: int)
    ensures Atoi(IntToString(n)) == Some(n)
  {
    if n < 0 {
      var s := IntToString(n);
      NatToStringValue(-n);
      assert s[1..] == NatToString(-n);
    } else {
      var s := NatToString(n);
      NatToStringValue(n);
      assert IsDigit(s[0]);
    }
  }

  /** Different numbers print differently. */
  lemma IntToStringInjective(a: int, b: int)
    requires IntToString(a) == IntToString(b)
    ensures a == b
  {
    AtoiIntToString(a);
    AtoiIntToString(b);
  }
}
