/** The error aggregator: an ordered list of error messages shared by a root
    handle and any number of prefixing views, rendered as a counted bullet
    list. Errors are represented by their messages; `%w` wrapping is the
    text `"<outer>: <inner>"`. */
module Errors {
  import opened Wrappers
  import opened Text

  const ErrIsEmpty: string := "is empty"
  const ErrIsDuplicate: string := "is duplicate"
  const ErrNotFound: string := "not found"

  /** `fmt.Errorf("<outer>: %w", inner)`, as text. */
  function Wrap(outer: string, inner: string): string {
    outer + ": " + inner
  }

  /** What one prefixing view does to a message passing through it: an
      empty prefix leaves it alone. */
  function AddPrefix(prefix: string, msg: string): string {
    if prefix == "" then msg else Wrap(prefix, msg)
  }

  /** The message stored when `msg` is added through nested views whose
      prefixes are `prefixes`, outermost first: the innermost view prefixes
      the message and passes it on to its parent, up to the root. */
  function Scoped(prefixes: seq<string>, msg: string): string
    decreases |prefixes|
  {
    if prefixes == [] then msg
    else Scoped(prefixes[..|prefixes| - 1], AddPrefix(prefixes[|prefixes| - 1], msg))
  }

  /** The outermost view's prefix ends up first in the stored message. */
  lemma {:induction false} ScopedOuterFirst(p: string, ps: seq<string>, msg: string)
    ensures Scoped([p] + ps, msg) == AddPrefix(p, Scoped(ps, msg))
    decreases |ps|
  {
    if ps == [] {
      assert ([p] + ps)[..0] == [];
    } else {
      var init, q := ps[..|ps| - 1], ps[|ps| - 1];
      var all := [p] + ps;
      assert all[..|all| - 1] == [p] + init;
      assert all[|all| - 1] == q;
      ScopedOuterFirst(p, init, AddPrefix(q, msg));
    }
  }

  /** With no empty prefix, nested views join their prefixes and the message
      with ": ", outermost first, e.g. ["row 3", "home own goals", "event 1"]
      and "invalid format" give "row 3: home own goals: event 1: invalid format". */
  lemma {:induction false} ScopedJoin(ps: seq<string>, msg: string)
    requires forall i :: 0 <= i < |ps| ==> ps[i] != ""
    ensures Scoped(ps, msg) == Join(ps + [msg], ": ")
    decreases |ps|
  {
    if ps != [] {
      var p, rest := ps[0], ps[1..];
      assert ps == [p] + rest;
      ScopedOuterFirst(p, rest, msg);
      ScopedJoin(rest, msg);
      assert ps + [msg] == [p] + (rest + [msg]);
      JoinCons(p, rest + [msg], ": ");
    }
  }

  /** A view with an empty prefix stores what its parent would. */
  lemma ScopedEmptyPrefix(ps: seq<string>, msg: string)
    ensures Scoped(ps + [""], msg) == Scoped(ps, msg)
  {
    assert (ps + [""])[..|ps|] == ps;
  }

  /** The messages stored when each of `msgs` is added through the views
      `prefixes`, in order. */
  function ScopedAll(prefixes: seq<string>, msgs: seq<string>): (r: seq<string>)
    ensures |r| == |msgs|
    ensures forall i :: 0 <= i < |msgs| ==> r[i] == Scoped(prefixes, msgs[i])
    decreases |msgs|
  {
    if msgs == [] then []
    else ScopedAll(prefixes, msgs[..|msgs| - 1]) + [Scoped(prefixes, msgs[|msgs| - 1])]
  }

  /** Adding one more message extends the stored messages by its scoped form. */
  lemma ScopedAllStep(prefixes: seq<string>, msgs: seq<string>, j: nat)
    requires j < |msgs|
    ensures ScopedAll(prefixes, msgs[..j + 1]) == ScopedAll(prefixes, msgs[..j]) + [Scoped(prefixes, msgs[j])]
  {
    assert msgs[..j + 1][..j] == msgs[..j];
  }

  /** A view one level deeper prefixes the message before its parent does. */
  lemma ScopedNest(ps: seq<string>, q: string, msg: string)
    ensures Scoped(ps + [q], msg) == Scoped(ps, Scoped([q], msg))
  {
    assert (ps + [q])[..|ps|] == ps;
    assert [q][..0] == [];
  }

  /** Adding through a view with prefix `q` stores what adding the
      `q`-prefixed messages through its parent would. */
  lemma ScopedAllNest(ps: seq<string>, q: string, msgs: seq<string>)
    ensures ScopedAll(ps + [q], msgs) == ScopedAll(ps, ScopedAll([q], msgs))
  {
    forall i | 0 <= i < |msgs|
      ensures ScopedAll(ps + [q], msgs)[i] == ScopedAll(ps, ScopedAll([q], msgs))[i]
    {
      ScopedNest(ps, q, msgs[i]);
    }
  }

  /** Two batches added one after the other. */
  lemma ScopedAllExtend(base: seq<string>, ps: seq<string>, acc: seq<string>, more: seq<string>)
    ensures (base + ScopedAll(ps, acc)) + ScopedAll(ps, more) == base + ScopedAll(ps, acc + more)
  {
    ScopedAllAppend(ps, acc, more);
  }

  /** Adding through a view labelled `q` after adding through its parent. */
  lemma NestStep(base: seq<string>, ps: seq<string>, acc: seq<string>, q: string, more: seq<string>)
    ensures (base + ScopedAll(ps, acc)) + ScopedAll(ps + [q], more)
            == base + ScopedAll(ps, acc + ScopedAll([q], more))
  {
    ScopedAllNest(ps, q, more);
    ScopedAllExtend(base, ps, acc, ScopedAll([q], more));
  }

  /** The messages added through the root are the messages themselves. */
  lemma ScopedAllRoot(msgs: seq<string>)
    ensures ScopedAll([], msgs) == msgs
  {
  }

  lemma ScopedAllAppend(prefixes: seq<string>, a: seq<string>, b: seq<string>)
    ensures ScopedAll(prefixes, a + b) == ScopedAll(prefixes, a) + ScopedAll(prefixes, b)
  {
  }

  // ---------------------------------------------------------------------
  // Numbered batches: a loop that handles each element through a view
  // labelled with its 1-based position ("row 3", "match 2").

  /** A value produced together with the problems met producing it. */
  datatype Checked<+T> = Checked(value: T, errs: seq<string>)

  /** The label of the element at 1-based position `k`. */
  function Numbered(noun: string, k: nat): string {
    noun + " " + IntToString(k)
  }

  /** The values of `cs`, in order. */
  function Values<T>(cs: seq<Checked<T>>): (r: seq<T>)
    ensures |r| == |cs|
    decreases |cs|
  {
    if cs == [] then [] else Values(cs[..|cs| - 1]) + [cs[|cs| - 1].value]
  }

  /** The problems of `cs`, each element's under "<noun> <k>", counting the
      first element as one. */
  function NumberedProblems<T>(noun: string, cs: seq<Checked<T>>): seq<string>
    decreases |cs|
  {
    if cs == [] then []
    else NumberedProblems(noun, cs[..|cs| - 1]) + ScopedAll([Numbered(noun, |cs|)], cs[|cs| - 1].errs)
  }

  lemma NumberedStep<T>(noun: string, cs: seq<Checked<T>>, i: nat)
    requires i < |cs|
    ensures Values(cs[..i + 1]) == Values(cs[..i]) + [cs[i].value]
    ensures NumberedProblems(noun, cs[..i + 1])
            == NumberedProblems(noun, cs[..i]) + ScopedAll([Numbered(noun, i + 1)], cs[i].errs)
  {
    assert cs[..i + 1][..i] == cs[..i];
  }

  /** Each value is that of the element at its own position. */
  lemma {:induction false} ValuesIndex<T>(cs: seq<Checked<T>>)
    ensures forall i :: 0 <= i < |cs| ==> Values(cs)[i] == cs[i].value
    decreases |cs|
  {
    if cs != [] {
      ValuesIndex(cs[..|cs| - 1]);
    }
  }

  /** No element has a problem. */
  predicate AllClean<T>(cs: seq<Checked<T>>) {
    forall i :: 0 <= i < |cs| ==> cs[i].errs == []
  }

  lemma AllCleanSnoc<T>(cs: seq<Checked<T>>)
    requires cs != []
    ensures AllClean(cs) <==> AllClean(cs[..|cs| - 1]) && cs[|cs| - 1].errs == []
  {
    var n := |cs| - 1;
    assert forall i :: 0 <= i < n ==> cs[..n][i] == cs[i];
  }

  /** The batch has no problem exactly when no element has one. */
  lemma {:induction false} NumberedProblemsEmpty<T>(noun: string, cs: seq<Checked<T>>)
    ensures NumberedProblems(noun, cs) == [] <==> AllClean(cs)
    decreases |cs|
  {
    if cs != [] {
      var n := |cs| - 1;
      NumberedProblemsEmpty(noun, cs[..n]);
      AllCleanSnoc(cs);
      assert |ScopedAll([Numbered(noun, |cs|)], cs[n].errs)| == |cs[n].errs|;
    }
  }

  // ---------------------------------------------------------------------
  // Rendering.

  /** The first line of the rendering of `n >= 1` errors. */
  function HeaderLine(n: nat): string {
    if n == 1 then "1 error:\n" else IntToString(n) + " errors:\n"
  }

  /** The line listing one stored error; an empty message is not listed. */
  function Line(msg: string): string {
    if msg == "" then "" else "- " + msg + "\n"
  }

  /** The bullet lines of `errs`, in order. */
  function Listing(errs: seq<string>): string
    decreases |errs|
  {
    if errs == [] then ""
    else Listing(errs[..|errs| - 1]) + Line(errs[|errs| - 1])
  }

  lemma ListingStep(errs: seq<string>, i: nat)
    requires i < |errs|
    ensures Listing(errs[..i + 1]) == Listing(errs[..i]) + Line(errs[i])
  {
    assert errs[..i + 1][..i] == errs[..i];
  }

  /** The text of the aggregate holding `errs`. */
  function Render(errs: seq<string>): string {
    if errs == [] then "0 errors"
    else Trim(HeaderLine(|errs|) + Listing(errs), '\n')
  }

  /** The header of the rendering, without its newline. */
  function Header(n: nat): string {
    if n == 1 then "1 error:" else IntToString(n) + " errors:"
  }

  /** The non-empty messages of `errs`, in order. */
  function Listed(errs: seq<string>): (r: seq<string>)
    ensures forall i :: 0 <= i < |r| ==> r[i] != ""
    decreases |errs|
  {
    if errs == [] then []
    else
      var init := Listed(errs[..|errs| - 1]);
      var last := errs[|errs| - 1];
      if last == "" then init else init + [last]
  }

  /** One listed message, on a line of its own starting "- ". */
  function Bullet(msg: string): string {
    "\n- " + msg
  }

  /** The messages, each on a line of its own starting "- ". */
  function Bullets(msgs: seq<string>): string
    decreases |msgs|
  {
    if msgs == [] then ""
    else Bullets(msgs[..|msgs| - 1]) + Bullet(msgs[|msgs| - 1])
  }

  /** A message that does not end in a newline, so that trimming the
      rendering cannot eat into it. */
  predicate Clean(msg: string) {
    msg == "" || msg[|msg| - 1] != '\n'
  }

  lemma LineBullet(msg: string)
    requires msg != ""
    ensures "\n" + Line(msg) == Bullet(msg) + "\n"
  {
  }

  /** Moving a newline from the front to the back of two concatenated strings. */
  lemma ShiftNewline(a: string, b: string, c: string, d: string)
    requires "\n" + a == b + "\n"
    requires "\n" + c == d + "\n"
    ensures "\n" + (a + c) == (b + d) + "\n"
  {
    calc {
      "\n" + (a + c);
      ("\n" + a) + c;
      (b + "\n") + c;
      b + ("\n" + c);
      b + (d + "\n");
      (b + d) + "\n";
    }
  }

  lemma {:induction false} ListingBullets(errs: seq<string>)
    ensures "\n" + Listing(errs) == Bullets(Listed(errs)) + "\n"
    decreases |errs|
  {
    if errs != [] {
      var init, last := errs[..|errs| - 1], errs[|errs| - 1];
      ListingBullets(init);
      assert Listing(errs) == Listing(init) + Line(last);
      if last == "" {
        assert Listed(errs) == Listed(init);
      } else {
        var ms := Listed(init) + [last];
        assert Listed(errs) == ms;
        assert ms[..|ms| - 1] == Listed(init);
        assert Bullets(ms) == Bullets(Listed(init)) + Bullet(last);
        LineBullet(last);
        ShiftNewline(Listing(init), Bullets(Listed(init)), Line(last), Bullet(last));
      }
    }
  }

  /** The numeric part of the header starts with a digit. */
  lemma HeaderStartsWithDigit(n: nat)
    requires n >= 1
    ensures |Header(n)| > 0 && IsDigit(Header(n)[0]) && Header(n)[|Header(n)| - 1] == ':'
    ensures HeaderLine(n) == Header(n) + "\n"
  {
    if n != 1 {
      assert IsDigit(IntToString(n)[0]);
    }
  }

  /** An empty aggregate renders as "0 errors". Otherwise the rendering is
      the header counting every stored error, listed or not, followed by one
      "- <msg>" line per non-empty message. */
  lemma RenderShape(errs: seq<string>)
    requires forall i :: 0 <= i < |errs| ==> Clean(errs[i])
    ensures errs == [] ==> Render(errs) == "0 errors"
    ensures errs != [] ==> Render(errs) == Header(|errs|) + Bullets(Listed(errs))
  {
    if errs != [] {
      RenderNonEmpty(errs);
    }
  }

  lemma RenderNonEmpty(errs: seq<string>)
    requires errs != []
    requires forall i :: 0 <= i < |errs| ==> Clean(errs[i])
    ensures Render(errs) == Header(|errs|) + Bullets(Listed(errs))
  {
    RenderBodyEnds(errs);
    RenderOfBody(errs);
  }

  /** With clean messages, the header and bullets neither start nor end
      with a newline. */
  lemma RenderBodyEnds(errs: seq<string>)
    requires errs != []
    requires forall i :: 0 <= i < |errs| ==> Clean(errs[i])
    ensures var body := Header(|errs|) + Bullets(Listed(errs)); body[0] != '\n' && body[|body| - 1] != '\n'
  {
    var n := |errs|;
    HeaderStartsWithDigit(n);
    ListedClean(errs);
    BodyEnd(Header(n), Listed(errs));
  }

  /** When the header and bullets neither start nor end with a newline,
      the rendering is exactly them. */
  lemma RenderOfBody(errs: seq<string>)
    requires errs != []
    requires var body := Header(|errs|) + Bullets(Listed(errs)); body[0] != '\n' && body[|body| - 1] != '\n'
    ensures Render(errs) == Header(|errs|) + Bullets(Listed(errs))
  {
    RawRendering(errs);
    TrimOneTrailing(Header(|errs|) + Bullets(Listed(errs)), '\n');
  }

  /** Before trimming, the rendering is the header, the bullets and a final
      newline. */
  lemma RawRendering(errs: seq<string>)
    requires errs != []
    ensures HeaderLine(|errs|) + Listing(errs) == Header(|errs|) + Bullets(Listed(errs)) + "\n"
  {
    var n := |errs|;
    HeaderStartsWithDigit(n);
    ListingBullets(errs);
    ConcatAssoc(Header(n), "\n", Listing(errs));
    ConcatAssoc(Header(n), Bullets(Listed(errs)), "\n");
  }

  /** Listing only keeps messages that were there. */
  lemma {:induction false} ListedClean(errs: seq<string>)
    requires forall i :: 0 <= i < |errs| ==> Clean(errs[i])
    ensures forall i :: 0 <= i < |Listed(errs)| ==> Clean(Listed(errs)[i])
    decreases |errs|
  {
    if errs != [] {
      ListedClean(errs[..|errs| - 1]);
    }
  }

  /** The rendered body ends with the last character of the last listed
      message, or with the header's colon when nothing is listed. */
  lemma BodyEnd(h: string, ms: seq<string>)
    requires forall i :: 0 <= i < |ms| ==> Clean(ms[i]) && ms[i] != ""
    requires h != [] && h[|h| - 1] == ':' && h[0] != '\n'
    ensures var body := h + Bullets(ms); body[0] != '\n' && body[|body| - 1] != '\n'
  {
    var body := h + Bullets(ms);
    if ms == [] {
      assert body == h;
    } else {
      BulletsLast(ms);
      assert body[|body| - 1] == Bullets(ms)[|Bullets(ms)| - 1];
    }
  }

  lemma BulletsLast(ms: seq<string>)
    requires ms != [] && ms[|ms| - 1] != ""
    ensures var b, m := Bullets(ms), ms[|ms| - 1]; b != [] && b[|b| - 1] == m[|m| - 1]
  {
  }

  /** Whatever the messages, a non-empty aggregate's rendering starts with a
      header counting all of them. */
  lemma RenderHeader(errs: seq<string>)
    requires errs != []
    ensures Header(|errs|) <= Render(errs)
  {
    var n := |errs|;
    HeaderStartsWithDigit(n);
    var h := Header(n);
    assert h[|h| - 1] == ':';
    TrimKeepsPrefix(h, "\n" + Listing(errs), '\n');
    ConcatAssoc(h, "\n", Listing(errs));
  }

  // ---------------------------------------------------------------------
  // The aggregator itself.

  /** The error slice shared by a root aggregator and all its views. */
  class ErrorList {
    var errs: seq<string>

    constructor ()
      ensures errs == []
    {
      errs := [];
    }
  }

  /** A handle on an error list: the root aggregator (no prefixes) or a view
      created by `WithPrefix`, which holds no errors of its own and stores
      through its parents. `prefixes` lists the views' prefixes outermost
      first. */
  class MultiError {
    const list: ErrorList
    const prefixes: seq<string>

    /** NewMultiError: a root aggregator over a fresh, empty list. */
    constructor ()
      ensures fresh(list) && list.errs == [] && prefixes == []
    {
      list := new ErrorList();
      prefixes := [];
    }

    constructor View(list: ErrorList, prefixes: seq<string>)
      ensures this.list == list && this.prefixes == prefixes
    {
      this.list := list;
      this.prefixes := prefixes;
    }

    /** No error has been stored in the shared list. */
    predicate IsEmpty()
      reads list
      ensures IsEmpty() <==> list.errs == []
    {
      |list.errs| == 0
    }

    /** Adds `err` (`None` is a nil error) at the end of the shared list,
        prefixed by every enclosing view; a nil error adds nothing. */
    method Add(err: Option<string>)
      modifies list
      ensures err.None? ==> list.errs == old(list.errs)
      ensures err.Some? ==> list.errs == old(list.errs) + [Scoped(prefixes, err.value)]
      ensures list.errs == old(list.errs) + ScopedAll(prefixes, OptionToSeq(err))
    {
      if err.Some? {
        list.errs := list.errs + [Scoped(prefixes, err.value)];
      }
    }

    /** Adds each of `msgs` in turn, as a loop of `Add` calls does. */
    method AddAll(msgs: seq<string>)
      modifies list
      ensures list.errs == old(list.errs) + ScopedAll(prefixes, msgs)
    {
      var j := 0;
      assert ScopedAll(prefixes, msgs[..0]) == [];
      assert list.errs + [] == list.errs;
      while j < |msgs|
        invariant 0 <= j <= |msgs|
        invariant list.errs == old(list.errs) + ScopedAll(prefixes, msgs[..j])
      {
        ScopedAllStep(prefixes, msgs, j);
        Add(Some(msgs[j]));
        j := j + 1;
      }
      assert msgs[..j] == msgs;
    }

    /** A view writing through this handle with one more prefix. */
    method WithPrefix(prefix: string) returns (view: MultiError)
      ensures fresh(view)
      ensures view.list == list && view.prefixes == prefixes + [prefix]
    {
      view := new MultiError.View(list, prefixes + [prefix]);
    }

    /** The rendering of the shared list. */
    method Error() returns (msg: string)
      ensures msg == Render(list.errs)
    {
      var errs := list.errs;
      if |errs| == 0 {
        return "0 errors";
      }
      if |errs| == 1 {
        msg := "1 error:\n";
      } else {
        msg := IntToString(|errs|) + " errors:\n";
      }
      var i := 0;
      assert msg == HeaderLine(|errs|) + Listing(errs[..0]);
      while i < |errs|
        invariant 0 <= i <= |errs|
        invariant msg == HeaderLine(|errs|) + Listing(errs[..i])
      {
        ListingStep(errs, i);
        if errs[i] != "" {
          msg := msg + ("- " + errs[i] + "\n");
          ConcatAssoc(HeaderLine(|errs|), Listing(errs[..i]), Line(errs[i]));
        } else {
          assert Listing(errs[..i]) + Line(errs[i]) == Listing(errs[..i]);
        }
        i := i + 1;
      }
      assert errs[..i] == errs;
      msg := Trim(msg, '\n');
    }
  }

  /** An error value as a caller receives it: a single error, an aggregate
      holding a list of messages, or an error wrapped with context. */
  datatype Failure = Simple(msg: string) | Aggregate(errs: seq<string>) | Wrapped(context: string, inner: Failure)

  /** The error's text. */
  function Message(f: Failure): string {
    match f
    case Simple(m) => m
    case Aggregate(errs) => Render(errs)
    case Wrapped(c, inner) => Wrap(c, Message(inner))
  }
}
