/** The matches CSV loader: turning the records of a matches file into
    matches, field by field, collecting every problem under the row, field
    and event it concerns, and then validating the collection. */
module MatchCsv {
  import opened Wrappers
  import opened Text
  import opened Errors
  import opened Teams
  import opened Matches

  /** A field's parsed value and the problem met parsing it, if any. */
  datatype Parsed<T> = Parsed(value: T, err: Option<string>)

  // ---------------------------------------------------------------------
  // Single fields.

  /** The date and time cells joined by a space, spaces trimmed. */
  function TimestampText(date: string, time: string): string {
    Trim(date + " " + time, ' ')
  }

  /** parseTimestamp, with `parse` standing for `time.Parse` under the
      layout "02/01/2006 15:04": blank cells are the zero time and no
      problem; text that does not parse is the zero time and a problem. */
  function ParseTimestamp(date: string, time: string, parse: string -> Option<Timestamp>): (r: Parsed<Timestamp>)
    ensures r.err.Some? ==> r.value == ZeroTime
  {
    var text := TimestampText(date, time);
    if text == "" then Parsed(ZeroTime, None)
    else match parse(text)
      case None => Parsed(ZeroTime, Some("invalid timestamp format: " + text))
      case Some(ts) => Parsed(ts, None)
  }

  /** A date cell with an empty time cell is parsed on its own, and the
      problem, if any, quotes it unchanged. */
  lemma ParseTimestampDateOnly(date: string, parse: string -> Option<Timestamp>)
    requires date != "" && date[0] != ' ' && date[|date| - 1] != ' '
    ensures ParseTimestamp(date, "", parse)
            == if parse(date).Some? then Parsed(parse(date).value, None)
               else Parsed(ZeroTime, Some("invalid timestamp format: " + date))
  {
    assert date + " " + "" == date + [' '];
    TrimOneTrailing(date, ' ');
  }

  /** A failed parse leaves the zero time, which validation then reports
      as an empty timestamp as well. */
  lemma ParseTimestampFailure(date: string, time: string, parse: string -> Option<Timestamp>)
    ensures ParseTimestamp(date, time, parse).err.Some?
            <==> TimestampText(date, time) != "" && parse(TimestampText(date, time)).None?
    ensures ParseTimestamp(date, time, parse).err.Some? ==> ParseTimestamp(date, time, parse).value == ZeroTime
  {
  }

  /** parseUInt8: an empty cell is zero; anything strconv.Atoi rejects is
      zero and a problem; any other integer is kept modulo 256. */
  function ParseUInt8(s: string): (r: Parsed<Uint8>)
    ensures r.err.None? <==> s == "" || Atoi(s).Some?
    ensures r.err.Some? ==> r.value == 0
  {
    if s == "" then Parsed(0, None)
    else match Atoi(s)
      case None => Parsed(0, Some("invalid int: " + AtoiError(s)))
      case Some(v) => Parsed(ToUint8(v), None)
  }

  /** Any integer written in decimal reads as its low eight bits: a count
      in range reads as itself, 256 as zero and -1 as 255. */
  lemma ParseUInt8Decimal(v: int)
    ensures ParseUInt8(IntToString(v)) == Parsed(ToUint8(v), None)
    ensures 0 <= v < 256 ==> ParseUInt8(IntToString(v)).value == v
  {
    AtoiIntToString(v);
  }

  /** The name a stage has in the file. */
  function StageName(s: Stage): string {
    match s
    case Unset => ""
    case GroupStage => "GROUP"
    case KnockoutStage => "KO"
  }

  /** convertToMatchStage: "GROUP" or "KO"; anything else is the zero
      stage and a problem. */
  function ConvertToMatchStage(s: string): (r: Parsed<Stage>)
    ensures r.err.None? <==> s == "GROUP" || s == "KO"
    ensures r.err.Some? <==> r.value == Unset
  {
    if s == "GROUP" then Parsed(GroupStage, None)
    else if s == "KO" then Parsed(KnockoutStage, None)
    else Parsed(Unset, Some("invalid match stage: " + s))
  }

  /** Stage names and stages correspond one to one: every known stage reads
      back from its name, and a cell that reads without a problem is the
      name of the stage it gives. */
  lemma StageRoundTrip(st: Stage, s: string)
    ensures st != Unset ==> ConvertToMatchStage(StageName(st)) == Parsed(st, None)
    ensures ConvertToMatchStage(s).err.None? ==> ConvertToMatchStage(s).value != Unset
    ensures ConvertToMatchStage(s).err.None? ==> StageName(ConvertToMatchStage(s).value) == s
  {
  }

  // ---------------------------------------------------------------------
  // Match events.

  /** parseMatchEvent: "<name>:<minute>" or "<name>:<minute>+<offset>",
      the name trimmed of spaces; the minute and a present offset must be
      integers of at least one, and are kept modulo 256. */
  function ParseMatchEvent(s: string): (r: Result<MatchEvent, string>)
    ensures r.Success? ==> |Split(s, ':')| == 2 && r.value.name == Trim(Split(s, ':')[0], ' ')
  {
    var split := Split(s, ':');
    if |split| != 2 then Failure("invalid format")
    else
      var name := Trim(split[0], ' ');
      var parts := SplitOnce(split[1], '+');
      var rawMinute := parts[0];
      var rawOffset := if |parts| == 2 then parts[1] else "";
      match Atoi(rawMinute)
      case None => Failure("minute: invalid int: " + AtoiError(rawMinute))
      case Some(minute) =>
        if minute < 1 then Failure("minute: must be greater than 0")
        else if rawOffset == "" then Success(MatchEvent(name, ToUint8(minute), 0))
        else match Atoi(rawOffset)
          case None => Failure("offset: invalid int: " + AtoiError(rawOffset))
          case Some(offset) =>
            if offset < 1 then Failure("offset: must be greater than 0")
            else Success(MatchEvent(name, ToUint8(minute), ToUint8(offset)))
  }

  /** The text of an event: the offset is written only when it is not zero. */
  function EventText(name: string, minute: int, offset: int): string {
    name + ":" + IntToString(minute) + (if offset == 0 then "" else "+" + IntToString(offset))
  }

  function FormatEvent(e: MatchEvent): string {
    EventText(e.name, e.minute, e.offset)
  }

  /** A name that survives the event format: trimmed, and free of the
      characters that separate events and their parts. */
  predicate EventName(name: string) {
    ':' !in name && ';' !in name && Trim(name, ' ') == name
  }

  /** A decimal number holds no separator. */
  lemma DecimalLacks(n: nat)
    ensures ':' !in IntToString(n) && '+' !in IntToString(n) && ';' !in IntToString(n)
  {
    DigitsLack(IntToString(n), ':');
    DigitsLack(IntToString(n), '+');
    DigitsLack(IntToString(n), ';');
  }

  /** An event written with positive minute and a non-negative offset reads
      back with both kept modulo 256: minute 256 is stored as zero, even
      though a written minute of zero is refused. */
  lemma ParseEventText(name: string, minute: nat, offset: nat)
    requires ':' !in name && Trim(name, ' ') == name
    requires minute >= 1
    ensures ParseMatchEvent(EventText(name, minute, offset))
            == Success(MatchEvent(name, ToUint8(minute), ToUint8(offset)))
  {
    var dm := IntToString(minute);
    var tail := if offset == 0 then "" else "+" + IntToString(offset);
    var mt := dm + tail;
    DecimalLacks(minute);
    DecimalLacks(offset);
    assert ':' !in tail;
    assert EventText(name, minute, offset) == name + [':'] + mt;
    SplitPair(name, mt, ':');
    AtoiIntToString(minute);
    if offset != 0 {
      AtoiIntToString(offset);
      assert mt == dm + ['+'] + IntToString(offset);
      SplitOnceAt(dm, IntToString(offset), '+');
    } else {
      assert mt == dm;
    }
  }

  /** Writing an event with a positive minute and reading it back gives the
      event. */
  lemma FormatEventRoundTrip(e: MatchEvent)
    requires EventName(e.name) && e.minute >= 1
    ensures ParseMatchEvent(FormatEvent(e)) == Success(e)
  {
    ParseEventText(e.name, e.minute, e.offset);
  }

  /** A minute or offset below one is refused, with the problem naming which. */
  lemma ParseEventNotPositive(name: string, minute: int, offset: int)
    requires ':' !in name
    ensures minute < 1 ==> ParseMatchEvent(name + ":" + IntToString(minute)) == Failure("minute: must be greater than 0")
    ensures minute >= 1 && offset < 1
            ==> ParseMatchEvent(name + ":" + IntToString(minute) + "+" + IntToString(offset)) == Failure("offset: must be greater than 0")
  {
    var dm := IntToString(minute);
    AtoiIntToString(minute);
    if minute < 1 {
      assert ':' !in dm && '+' !in dm by {
        assert dm == "-" + NatToString(-minute) || minute == 0;
        DigitsLack(NatToString(if minute < 0 then -minute else 0), ':');
        DigitsLack(NatToString(if minute < 0 then -minute else 0), '+');
      }
      assert name + ":" + dm == name + [':'] + dm;
      SplitPair(name, dm, ':');
    } else if offset < 1 {
      var doff := IntToString(offset);
      AtoiIntToString(offset);
      DecimalLacks(minute);
      assert ':' !in doff by {
        assert doff == "-" + NatToString(-offset) || offset == 0;
        DigitsLack(NatToString(if offset < 0 then -offset else 0), ':');
      }
      var mt := dm + "+" + doff;
      assert name + ":" + dm + "+" + doff == name + [':'] + mt;
      SplitPair(name, mt, ':');
      assert mt == dm + ['+'] + doff;
      SplitOnceAt(dm, doff, '+');
    }
  }

  /** An event that was read has a name that is trimmed and free of ':'. */
  lemma ParsedEventName(s: string)
    requires ParseMatchEvent(s).Success?
    ensures ':' !in ParseMatchEvent(s).value.name
    ensures Trim(ParseMatchEvent(s).value.name, ' ') == ParseMatchEvent(s).value.name
  {
    var split := Split(s, ':');
    TrimIdempotent(split[0], ' ');
    TrimLacks(split[0], ' ', ':');
  }

  function EventLabel(k: nat): string {
    "event " + IntToString(k)
  }

  function ResultValues(r: Result<MatchEvent, string>): seq<MatchEvent> {
    if r.Success? then [r.value] else []
  }

  function ResultErrors(r: Result<MatchEvent, string>): seq<string> {
    if r.Failure? then [r.error] else []
  }

  /** What each element text reads as. */
  function Outcomes(elems: seq<string>): (r: seq<Result<MatchEvent, string>>)
    ensures |r| == |elems|
  {
    seq(|elems|, i requires 0 <= i < |elems| => ParseMatchEvent(elems[i]))
  }

  /** The events among the outcomes `rs`, skipping the failures. */
  function EventsOf(rs: seq<Result<MatchEvent, string>>): (r: seq<MatchEvent>)
    ensures |r| <= |rs|
    decreases |rs|
  {
    if rs == [] then []
    else EventsOf(rs[..|rs| - 1]) + ResultValues(rs[|rs| - 1])
  }

  /** The problems among the outcomes `rs`, each under "event <k>",
      counting from one. */
  function EventsProblems(rs: seq<Result<MatchEvent, string>>): seq<string>
    decreases |rs|
  {
    if rs == [] then []
    else EventsProblems(rs[..|rs| - 1]) + ScopedAll([EventLabel(|rs|)], ResultErrors(rs[|rs| - 1]))
  }

  lemma EventsStep(rs: seq<Result<MatchEvent, string>>, i: nat)
    requires i < |rs|
    ensures EventsOf(rs[..i + 1]) == EventsOf(rs[..i]) + ResultValues(rs[i])
    ensures EventsProblems(rs[..i + 1]) == EventsProblems(rs[..i]) + ScopedAll([EventLabel(i + 1)], ResultErrors(rs[i]))
  {
    assert rs[..i + 1][..i] == rs[..i];
  }

  /** Outcomes that all succeed give their events and no problem. */
  lemma {:induction false} AllSucceed(rs: seq<Result<MatchEvent, string>>, es: seq<MatchEvent>)
    requires |rs| == |es|
    requires forall i :: 0 <= i < |rs| ==> rs[i] == Success(es[i])
    ensures EventsOf(rs) == es && EventsProblems(rs) == []
    decreases |rs|
  {
    if rs != [] {
      var n := |rs| - 1;
      AllSucceed(rs[..n], es[..n]);
      SnocLast(es);
    }
  }

  const CountMissingMessage: string := "first element must provide count of remaining elements"

  function ElementCountMessage(n: int): string {
    "must have " + IntToString(n) + " element" + (if n != 1 then "s" else "")
  }

  /** The events of a cell and the problems met reading them. */
  datatype EventsParse = EventsParse(events: seq<MatchEvent>, errs: seq<string>)

  /** parseMatchEvents: a blank cell holds no events; otherwise the cell is
      a count followed by that many events, all separated by ';'. A missing
      count or a count that does not match is a single problem and no
      events; otherwise each event that does not read is a problem of its
      own and is skipped. */
  function ParsedEvents(s: string): EventsParse {
    var t := Trim(s, ' ');
    if t == "" then EventsParse([], [])
    else
      var split := Split(t, ';');
      match Atoi(split[0])
      case None => EventsParse([], [CountMissingMessage])
      case Some(n) =>
        var elems := split[1..];
        if |elems| != n then EventsParse([], [ElementCountMessage(n)])
        else EventsParse(EventsOf(Outcomes(elems)), EventsProblems(Outcomes(elems)))
  }

  /** The texts of some events. */
  function EventTexts(es: seq<MatchEvent>): (r: seq<string>)
    ensures |r| == |es|
  {
    seq(|es|, i requires 0 <= i < |es| => FormatEvent(es[i]))
  }

  lemma EventTextsAt(es: seq<MatchEvent>, i: nat)
    requires i < |es|
    ensures EventTexts(es)[i] == FormatEvent(es[i])
  {
  }

  /** The cell for a list of events: empty for none, otherwise the count and
      the events, separated by ';'. */
  function FormatEvents(es: seq<MatchEvent>): string {
    if es == [] then "" else Join([IntToString(|es|)] + EventTexts(es), ";")
  }

  /** Events the format can carry. */
  predicate Writable(es: seq<MatchEvent>) {
    forall i :: 0 <= i < |es| ==> EventName(es[i].name) && es[i].minute >= 1
  }

  /** Every text of a writable event reads back as that event. */
  lemma OutcomesOfTexts(es: seq<MatchEvent>)
    requires Writable(es)
    ensures EventsOf(Outcomes(EventTexts(es))) == es && EventsProblems(Outcomes(EventTexts(es))) == []
  {
    var rs := Outcomes(EventTexts(es));
    forall i | 0 <= i < |rs|
      ensures rs[i] == Success(es[i])
    {
      FormatEventRoundTrip(es[i]);
    }
    AllSucceed(rs, es);
  }

  /** The texts of events that end in a digit, which trimming leaves alone. */
  lemma EventTextEnds(e: MatchEvent)
    ensures var t := FormatEvent(e); t != "" && IsDigit(t[|t| - 1])
  {
    var dm := IntToString(e.minute);
    if e.offset == 0 {
      assert FormatEvent(e) == (e.name + ":") + dm;
    } else {
      var doff := IntToString(e.offset);
      assert FormatEvent(e) == (e.name + ":" + dm + "+") + doff;
    }
  }

  /** A cell that is already trimmed, whose first piece is the count of
      the others, holds what its other pieces read as. */
  lemma ParsedEventsCounted(s: string, elems: seq<string>)
    requires s != "" && Trim(s, ' ') == s
    requires |Split(s, ';')| == |elems| + 1 && Split(s, ';')[1..] == elems
    requires Atoi(Split(s, ';')[0]) == Some(|elems|)
    ensures ParsedEvents(s) == EventsParse(EventsOf(Outcomes(elems)), EventsProblems(Outcomes(elems)))
  {
  }

  /** No piece of an events cell holds the separator ';'. */
  lemma EventsCellPieces(es: seq<MatchEvent>)
    requires Writable(es)
    ensures forall i :: 0 <= i < |es| + 1 ==> ';' !in ([IntToString(|es|)] + EventTexts(es))[i]
  {
    forall i | 0 <= i < |es| + 1
      ensures ';' !in ([IntToString(|es|)] + EventTexts(es))[i]
    {
      if i > 0 {
        assert EventName(es[i - 1].name);
      }
      EventsCellPiece(es, i);
    }
  }

  /** EventsCellPieces for one piece. */
  lemma EventsCellPiece(es: seq<MatchEvent>, i: nat)
    requires i < |es| + 1 && (i > 0 ==> EventName(es[i - 1].name))
    ensures ';' !in ([IntToString(|es|)] + EventTexts(es))[i]
  {
    if i == 0 {
      DecimalLacks(|es|);
    } else {
      EventTextsLack(es, i - 1);
      ConsAt(IntToString(|es|), EventTexts(es), i);
    }
  }

  /** The text of a writable event in a list holds no ';'. */
  lemma EventTextsLack(es: seq<MatchEvent>, j: nat)
    requires j < |es| && EventName(es[j].name)
    ensures ';' !in EventTexts(es)[j]
  {
    EventTextsAt(es, j);
    EventTextLacks(es[j]);
  }

  /** The text of an event with a writable name holds no ';'. */
  lemma EventTextLacks(e: MatchEvent)
    requires EventName(e.name)
    ensures ';' !in FormatEvent(e)
  {
    DecimalLacks(e.minute);
    DecimalLacks(e.offset);
  }

  /** An events cell starts and ends with a digit. */
  lemma EventsCellEnds(es: seq<MatchEvent>)
    requires es != []
    ensures var s := FormatEvents(es); s != "" && IsDigit(s[0]) && IsDigit(s[|s| - 1])
  {
    var count := IntToString(|es|);
    var texts := EventTexts(es);
    JoinCons(count, texts, ";");
    assert FormatEvents(es)[0] == count[0];
    EventTextEnds(es[|es| - 1]);
    JoinLast([count] + texts, ";");
  }

  /** Writing a list of writable events to a cell and reading it back gives
      the list, with no problem. */
  lemma FormatEventsRoundTrip(es: seq<MatchEvent>)
    requires Writable(es)
    ensures ParsedEvents(FormatEvents(es)) == EventsParse(es, [])
  {
    if es != [] {
      var parts := [IntToString(|es|)] + EventTexts(es);
      var s := FormatEvents(es);
      EventsCellPieces(es);
      EventsCellEnds(es);
      TrimNoop(s, ' ');
      SplitJoin(parts, ';');
      assert parts[1..] == EventTexts(es);
      AtoiIntToString(|es|);
      ParsedEventsCounted(s, EventTexts(es));
      OutcomesOfTexts(es);
    }
  }


  /** parseMatchEvents, adding its problems to `m`. */
  method ParseMatchEvents(s: string, m: MultiError) returns (events: seq<MatchEvent>)
    modifies m.list
    ensures events == ParsedEvents(s).events
    ensures m.list.errs == old(m.list.errs) + ScopedAll(m.prefixes, ParsedEvents(s).errs)
  {
    var t := Trim(s, ' ');
    if t == "" {
      assert m.list.errs + [] == m.list.errs;
      return [];
    }
    var split := Split(t, ';');
    var count := Atoi(split[0]);
    if count.None? {
      m.Add(Some(CountMissingMessage));
      return [];
    }
    var elems := split[1..];
    if |elems| != count.value {
      m.Add(Some(ElementCountMessage(count.value)));
      return [];
    }
    ghost var rs := Outcomes(elems);
    events := [];
    var idx := 0;
    assert m.list.errs == old(m.list.errs) + ScopedAll(m.prefixes, EventsProblems(rs[..0]));
    while idx < |elems|
      invariant 0 <= idx <= |elems|
      invariant events == EventsOf(rs[..idx])
      invariant m.list.errs == old(m.list.errs) + ScopedAll(m.prefixes, EventsProblems(rs[..idx]))
    {
      var e := ParseMatchEvent(elems[idx]);
      assert e == rs[idx];
      NestStep(old(m.list.errs), m.prefixes, EventsProblems(rs[..idx]), EventLabel(idx + 1), ResultErrors(e));
      events := AddEvent(e, idx, m, events);
      EventsStep(rs, idx);
      idx := idx + 1;
    }
    assert rs[..idx] == rs;
  }

  /** One element of parseMatchEvents: a failure is added under the
      element's position, an event is kept. */
  method AddEvent(e: Result<MatchEvent, string>, idx: nat, m: MultiError, events: seq<MatchEvent>)
      returns (more: seq<MatchEvent>)
    modifies m.list
    ensures more == events + ResultValues(e)
    ensures m.list.errs == old(m.list.errs) + ScopedAll(m.prefixes + [EventLabel(idx + 1)], ResultErrors(e))
  {
    var view := m.WithPrefix(EventLabel(idx + 1));
    if e.Failure? {
      view.Add(Some(e.error));
      more := events;
    } else {
      assert view.list.errs + [] == view.list.errs;
      more := events + [e.value];
    }
  }

  // ---------------------------------------------------------------------
  // Rows.

  /** The id-only team a row names, resolved later against a tournament's
      teams; an empty cell names none. */
  function PlaceholderTeam(id: string): (r: Option<Team>)
    ensures r.None? <==> id == ""
    ensures r.Some? ==> r.value == Team(id, "", "")
  {
    if id == "" then None else Some(Team(id, "", ""))
  }

  /** The four cells of one side: goals, yellow cards, own goals and red
      cards, each cell's problems under "<side> goals", "<side> yellow
      cards", "<side> own goals" and "<side> red cards". The team is filled
      in separately. */
  function ParseSide(side: string, goals: string, yellow: string, og: string, red: string): (r: Checked<Competitor>)
    ensures r.value.team.None?
  {
    var g, y := ParseUInt8(goals), ParseUInt8(yellow);
    var o, r := ParsedEvents(og), ParsedEvents(red);
    Checked(
      Competitor(None, g.value, y.value, o.events, r.events),
      ScopedAll([side + " goals"], OptionToSeq(g.err))
        + ScopedAll([side + " yellow cards"], OptionToSeq(y.err))
        + ScopedAll([side + " own goals"], o.errs)
        + ScopedAll([side + " red cards"], r.errs))
  }
  /** A side reads without a problem exactly when each of its four cells
      does. */
  lemma ParseSideClean(side: string, goals: string, yellow: string, og: string, red: string)
    ensures ParseSide(side, goals, yellow, og, red).errs == []
            <==> ParseUInt8(goals).err.None? && ParseUInt8(yellow).err.None?
                 && ParsedEvents(og).errs == [] && ParsedEvents(red).errs == []
  {
  }


  /** transformCSVRowToMatch: the sixteen cells, in header order, become a
      match; problems come in the order timestamp, stage, then the home
      side's cells and the away side's. */
  function ParseRow(row: seq<string>, parse: string -> Option<Timestamp>): Checked<Match>
    requires |row| == 16
  {
    var ts := ParseTimestamp(row[1], row[2], parse);
    var stage := ConvertToMatchStage(row[3]);
    var home := ParseSide("home", row[8], row[10], row[12], row[14]);
    var away := ParseSide("away", row[9], row[11], row[13], row[15]);
    Checked(
      Match(row[0], ts.value, stage.value,
            home.value.(team := PlaceholderTeam(row[6])),
            away.value.(team := PlaceholderTeam(row[7])),
            PlaceholderTeam(row[5]), row[4] == "Y"),
      OptionToSeq(ts.err) + OptionToSeq(stage.err) + home.errs + away.errs)
  }

  /** Adds `err` to `m` through a view with prefix `q`. */
  method AddUnder(m: MultiError, q: string, err: Option<string>)
    modifies m.list
    ensures m.list.errs == old(m.list.errs) + ScopedAll(m.prefixes, ScopedAll([q], OptionToSeq(err)))
  {
    var view := m.WithPrefix(q);
    view.Add(err);
    ScopedAllNest(m.prefixes, q, OptionToSeq(err));
  }

  /** Reads an events cell through a view with prefix `q`. */
  method EventsUnder(m: MultiError, q: string, cell: string) returns (events: seq<MatchEvent>)
    modifies m.list
    ensures events == ParsedEvents(cell).events
    ensures m.list.errs == old(m.list.errs) + ScopedAll(m.prefixes, ScopedAll([q], ParsedEvents(cell).errs))
  {
    var view := m.WithPrefix(q);
    events := ParseMatchEvents(cell, view);
    ScopedAllNest(m.prefixes, q, ParsedEvents(cell).errs);
  }

  /** Four batches added one after the other. */
  lemma ScopedAllFour(base: seq<string>, ps: seq<string>, a: seq<string>, b: seq<string>, c: seq<string>, d: seq<string>)
    ensures base + ScopedAll(ps, a) + ScopedAll(ps, b) + ScopedAll(ps, c) + ScopedAll(ps, d)
            == base + ScopedAll(ps, a + b + c + d)
  {
    ScopedAllExtend(base, ps, a, b);
    ScopedAllExtend(base, ps, a + b, c);
    ScopedAllExtend(base, ps, a + b + c, d);
  }

  /** The cells of one side, read in order, each through its own view. */
  method ParseCompetitor(side: string, goals: string, yellow: string, og: string, red: string, m: MultiError)
      returns (c: Competitor)
    modifies m.list
    ensures c == ParseSide(side, goals, yellow, og, red).value
    ensures m.list.errs == old(m.list.errs) + ScopedAll(m.prefixes, ParseSide(side, goals, yellow, og, red).errs)
  {
    var g := ParseUInt8(goals);
    AddUnder(m, side + " goals", g.err);
    var y := ParseUInt8(yellow);
    AddUnder(m, side + " yellow cards", y.err);
    var o := EventsUnder(m, side + " own goals", og);
    var r := EventsUnder(m, side + " red cards", red);
    c := Competitor(None, g.value, y.value, o, r);
    ScopedAllFour(old(m.list.errs), m.prefixes,
                  ScopedAll([side + " goals"], OptionToSeq(g.err)),
                  ScopedAll([side + " yellow cards"], OptionToSeq(y.err)),
                  ScopedAll([side + " own goals"], ParsedEvents(og).errs),
                  ScopedAll([side + " red cards"], ParsedEvents(red).errs));
  }

  /** transformCSVRowToMatch, adding the row's problems to `m`. */
  method TransformCSVRowToMatch(row: seq<string>, parse: string -> Option<Timestamp>, m: MultiError)
      returns (t: Match)
    requires |row| == 16
    modifies m.list
    ensures t == ParseRow(row, parse).value
    ensures m.list.errs == old(m.list.errs) + ScopedAll(m.prefixes, ParseRow(row, parse).errs)
  {
    var ts := ParseTimestamp(row[1], row[2], parse);
    m.Add(ts.err);
    var stage := ConvertToMatchStage(row[3]);
    m.Add(stage.err);
    var home := ParseCompetitor("home", row[8], row[10], row[12], row[14], m);
    var away := ParseCompetitor("away", row[9], row[11], row[13], row[15], m);
    t := Match(row[0], ts.value, stage.value,
               home.(team := PlaceholderTeam(row[6])),
               away.(team := PlaceholderTeam(row[7])),
               PlaceholderTeam(row[5]), row[4] == "Y");
    ScopedAllFour(old(m.list.errs), m.prefixes, OptionToSeq(ts.err), OptionToSeq(stage.err),
                  ParseSide("home", row[8], row[10], row[12], row[14]).errs,
                  ParseSide("away", row[9], row[11], row[13], row[15]).errs);
  }

  // ---------------------------------------------------------------------
  // Writing a row, and reading it back.

  /** The cell for an optional team: its id, or nothing. */
  function TeamCell(t: Option<Team>): string {
    if t.Some? then t.value.id else ""
  }

  /** A team as a row can carry it: absent, or an id-only team. */
  predicate Placeholder(t: Option<Team>) {
    t.None? || (t.value.id != "" && t.value.name == "" && t.value.imageUrl == "")
  }

  /** The row for a match whose timestamp is written as cells `date` and
      `time`. */
  function FormatRow(t: Match, date: string, time: string): (row: seq<string>)
    ensures |row| == 16
  {
    [t.id, date, time, StageName(t.stage), if t.completed then "Y" else "",
     TeamCell(t.winner), TeamCell(t.home.team), TeamCell(t.away.team),
     IntToString(t.home.goals), IntToString(t.away.goals),
     IntToString(t.home.yellowCards), IntToString(t.away.yellowCards),
     FormatEvents(t.home.ownGoals), FormatEvents(t.away.ownGoals),
     FormatEvents(t.home.redCards), FormatEvents(t.away.redCards)]
  }

  /** A side the format can carry. */
  predicate WritableSide(c: Competitor) {
    Placeholder(c.team) && Writable(c.ownGoals) && Writable(c.redCards)
  }

  /** A match the format can carry, with its timestamp written as `date`
      and `time` in a form `parse` reads back. */
  predicate WritableMatch(t: Match, date: string, time: string, parse: string -> Option<Timestamp>) {
    && t.stage != Unset
    && Placeholder(t.winner)
    && WritableSide(t.home) && WritableSide(t.away)
    && TimestampText(date, time) != ""
    && parse(TimestampText(date, time)) == Some(t.timestamp)
  }

  lemma PlaceholderRoundTrip(t: Option<Team>)
    requires Placeholder(t)
    ensures PlaceholderTeam(TeamCell(t)) == t
  {
  }

  /** The cells written for a side read back as that side, with no problem. */
  lemma SideRoundTrip(side: string, c: Competitor)
    requires Writable(c.ownGoals) && Writable(c.redCards)
    ensures ParseSide(side, IntToString(c.goals), IntToString(c.yellowCards),
                      FormatEvents(c.ownGoals), FormatEvents(c.redCards))
            == Checked(c.(team := None), [])
  {
    ParseUInt8Decimal(c.goals);
    ParseUInt8Decimal(c.yellowCards);
    FormatEventsRoundTrip(c.ownGoals);
    FormatEventsRoundTrip(c.redCards);
  }

  /** Writing a match to a row and transforming the row gives back the
      match, with no problem. */
  lemma RowRoundTrip(t: Match, date: string, time: string, parse: string -> Option<Timestamp>)
    requires WritableMatch(t, date, time, parse)
    ensures ParseRow(FormatRow(t, date, time), parse) == Checked(t, [])
  {
    SideRoundTrip("home", t.home);
    SideRoundTrip("away", t.away);
    PlaceholderRoundTrip(t.winner);
    PlaceholderRoundTrip(t.home.team);
    PlaceholderRoundTrip(t.away.team);
    StageRoundTrip(t.stage, "");
  }

  // ---------------------------------------------------------------------
  // Files.

  /** The header row a matches file must start with. */
  const MatchesCSVHeader: seq<string> := [
    "MATCH_ID", "DATE", "TIME", "STAGE", "COMPLETED", "WINNER_TEAM_ID",
    "HOME_TEAM_ID", "AWAY_TEAM_ID", "HOME_GOALS", "AWAY_GOALS",
    "HOME_YELLOW_CARDS", "AWAY_YELLOW_CARDS", "HOME_OG", "AWAY_OG",
    "HOME_RED_CARDS", "AWAY_RED_CARDS"]

  /** Every record has as many fields as the first, as the CSV reader
      guarantees. */
  predicate SameWidth(records: seq<seq<string>>) {
    forall i :: 0 <= i < |records| ==> |records[i]| == |records[0]|
  }

  /** What each data row reads as. */
  function RowParses(rows: seq<seq<string>>, parse: string -> Option<Timestamp>): (r: seq<Checked<Match>>)
    requires forall i :: 0 <= i < |rows| ==> |rows[i]| == 16
    ensures |r| == |rows|
  {
    seq(|rows|, i requires 0 <= i < |rows| => ParseRow(rows[i], parse))
  }

  /** transformCSVToMatches: a file needs a header row and at least one
      more row, and the header must be exactly the expected one; then every
      row is transformed, and any problem in any row rejects the file. */
  function Transformed(records: seq<seq<string>>, parse: string -> Option<Timestamp>): Result<seq<Match>, Failure>
    requires SameWidth(records)
  {
    if |records| < 2 then
      Failure(Simple("rows " + IntToString(|records|) + ": file must have header row and at least one more row"))
    else if records[0] != MatchesCSVHeader then
      Failure(Simple("invalid headers: " + Join(records[0], ",")))
    else
      var ps := RowParses(records[1..], parse);
      if NumberedProblems("row", ps) == [] then Success(Values(ps)) else Failure(Aggregate(NumberedProblems("row", ps)))
  }

  /** A file without a data row, or whose first row is not the expected
      header, is refused as a whole, before any row is read. */
  lemma TransformedRefusesShape(records: seq<seq<string>>, parse: string -> Option<Timestamp>)
    requires SameWidth(records)
    requires |records| < 2 || records[0] != MatchesCSVHeader
    ensures Transformed(records, parse).Failure? && Transformed(records, parse).error.Simple?
  {
  }

  /** A file with the header and at least one data row is accepted exactly
      when none of its data rows has a problem; the matches are then the
      rows' matches, in order. */
  lemma TransformedAccepts(records: seq<seq<string>>, parse: string -> Option<Timestamp>)
    requires SameWidth(records)
    requires |records| >= 2 && records[0] == MatchesCSVHeader
    ensures var ps := RowParses(records[1..], parse);
            Transformed(records, parse).Success? <==> AllClean(ps)
    ensures var ps := RowParses(records[1..], parse);
            Transformed(records, parse).Success? ==>
              |Transformed(records, parse).value| == |ps|
              && forall i :: 0 <= i < |ps| ==> Transformed(records, parse).value[i] == ps[i].value
  {
    var ps := RowParses(records[1..], parse);
    assert Transformed(records, parse)
           == if NumberedProblems("row", ps) == [] then Success(Values(ps)) else Failure(Aggregate(NumberedProblems("row", ps)));
    NumberedProblemsEmpty("row", ps);
    ValuesIndex(ps);
  }

  /** transformCSVToMatches, as the loop that collects every row's problems
      under the row's number. */
  method TransformCSVToMatches(records: seq<seq<string>>, parse: string -> Option<Timestamp>)
      returns (r: Result<seq<Match>, Failure>)
    requires SameWidth(records)
    ensures r == Transformed(records, parse)
  {
    if |records| < 2 {
      return Failure(Simple("rows " + IntToString(|records|) + ": file must have header row and at least one more row"));
    }
    if records[0] != MatchesCSVHeader {
      return Failure(Simple("invalid headers: " + Join(records[0], ",")));
    }
    var matches, errs := TransformRows(records[1..], parse);
    if errs != [] {
      return Failure(Aggregate(errs));
    }
    return Success(matches);
  }

  /** The loop of transformCSVToMatches: every row is transformed through a
      view labelled with its number, into one shared aggregate. */
  method TransformRows(rows: seq<seq<string>>, parse: string -> Option<Timestamp>)
      returns (matches: seq<Match>, errs: seq<string>)
    requires forall i :: 0 <= i < |rows| ==> |rows[i]| == 16
    ensures matches == Values(RowParses(rows, parse))
    ensures errs == NumberedProblems("row", RowParses(rows, parse))
  {
    ghost var ps := RowParses(rows, parse);
    var m := new MultiError();
    matches := [];
    var idx := 0;
    while idx < |rows|
      invariant 0 <= idx <= |rows|
      invariant m.prefixes == []
      invariant matches == Values(ps[..idx])
      invariant m.list.errs == NumberedProblems("row", ps[..idx])
    {
      var t := TransformRow(rows[idx], idx, parse, m);
      assert t == ps[idx].value;
      NumberedStep("row", ps, idx);
      matches := matches + [t];
      idx := idx + 1;
    }
    assert ps[..idx] == ps;
    errs := m.list.errs;
  }

  /** One round of the loop: the row at `idx` through the view "row <idx + 1>". */
  method TransformRow(row: seq<string>, idx: nat, parse: string -> Option<Timestamp>, m: MultiError)
      returns (t: Match)
    requires |row| == 16
    requires m.prefixes == []
    modifies m.list
    ensures t == ParseRow(row, parse).value
    ensures m.list.errs == old(m.list.errs) + ScopedAll([Numbered("row", idx + 1)], ParseRow(row, parse).errs)
  {
    var view := m.WithPrefix(Numbered("row", idx + 1));
    assert view.prefixes == [Numbered("row", idx + 1)];
    t := TransformCSVRowToMatch(row, parse, view);
  }

  /** What opening and reading a file gives: the reasons stand for the
      file-system and CSV-reader errors. */
  datatype FileRead = CannotOpen(reason: string) | CannotRead(reason: string) | Records(records: seq<seq<string>>)

  /** MatchesCSVLoader.LoadMatches, with `files` standing for the file
      system and CSV reader: the path must be set; the file must open and
      read; the records must transform; and the matches must validate. */
  method LoadMatches(path: string, files: string -> FileRead, parse: string -> Option<Timestamp>)
      returns (r: Result<seq<Match>, Failure>)
    requires files(path).Records? ==> SameWidth(files(path).records)
    ensures path == "" ==> r == Failure(Simple(Wrap("path", ErrIsEmpty)))
    ensures path != "" && files(path).CannotOpen? ==> r == Failure(Simple(Wrap("cannot open file", files(path).reason)))
    ensures path != "" && files(path).CannotRead? ==> r == Failure(Simple(Wrap("cannot read file", files(path).reason)))
    ensures path != "" && files(path).Records? && Transformed(files(path).records, parse).Failure?
            ==> r == Failure(Wrapped("cannot transform csv", Transformed(files(path).records, parse).error))
    ensures path != "" && files(path).Records? && Transformed(files(path).records, parse).Success?
            ==> var ms := Transformed(files(path).records, parse).value;
                (r.Success? <==> MatchesProblems(ms) == [])
                && (r.Success? ==> r.value == TrimAll(ms))
                && (r.Failure? ==> r.error == Aggregate(MatchesProblems(ms)))
  {
    if path == "" {
      return Failure(Simple(Wrap("path", ErrIsEmpty)));
    }
    var read := files(path);
    match read
    case CannotOpen(reason) =>
      return Failure(Simple(Wrap("cannot open file", reason)));
    case CannotRead(reason) =>
      return Failure(Simple(Wrap("cannot read file", reason)));
    case Records(records) =>
      var transformed := TransformCSVToMatches(records, parse);
      if transformed.Failure? {
        return Failure(Wrapped("cannot transform csv", transformed.error));
      }
      r := ValidateMatches(transformed.value);
  }
}
