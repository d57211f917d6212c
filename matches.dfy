/** Matches: their shape, the first-match lookups, and the validation of a
    decoded match collection (in-place trimming of ids, required fields,
    team consistency and duplicate ids). */
module Matches {
  import opened Wrappers
  import opened Text
  import opened Errors
  import opened Teams

  /** Go's `uint8`. */
  type Uint8 = x: int | 0 <= x < 256

  /** `uint8(v)` on an `int`: the low eight bits, for negative `v` too. */
  function ToUint8(v: int): (r: Uint8)
    ensures 0 <= v < 256 ==> r == v
    ensures (v - r) % 256 == 0
  {
    v % 256
  }

  /** `MatchStage`: the zero value stands for a stage that was not recognised. */
  datatype Stage = Unset | GroupStage | KnockoutStage

  /** A `time.Time`, as its distance from Go's zero time `time.Time{}`. */
  type Timestamp = int

  const ZeroTime: Timestamp := 0

  /** An own goal or red card: who, and in which minute (plus stoppage offset). */
  datatype MatchEvent = MatchEvent(name: string, minute: Uint8, offset: Uint8)

  /** One side of a match. A team that is present may be an id-only
      placeholder until the tournament resolves it. */
  datatype Competitor = Competitor(
    team: Option<Team>,
    goals: Uint8,
    yellowCards: Uint8,
    ownGoals: seq<MatchEvent>,
    redCards: seq<MatchEvent>)

  datatype Match = Match(
    id: string,
    timestamp: Timestamp,
    stage: Stage,
    home: Competitor,
    away: Competitor,
    winner: Option<Team>,
    completed: bool)

  // ---------------------------------------------------------------------
  // Lookups.

  /** MatchCollection.GetByID: the earliest match with id `id`, if any. */
  function GetByID(matches: seq<Match>, id: string): (r: Option<Match>)
    ensures r.Some? ==> r.value.id == id
    ensures r.None? <==> forall i :: 0 <= i < |matches| ==> matches[i].id != id
    ensures forall k :: 0 <= k < |matches| && matches[k].id == id && (forall j :: 0 <= j < k ==> matches[j].id != id)
                        ==> r == Some(matches[k])
  {
    match FirstIndex(matches, (m: Match) => m.id == id)
    case None => None
    case Some(k) => Some(matches[k])
  }

  /** MatchCollection.GetWinnerByMatchID: the winner of the match with id
      `id`, but only once that match is completed. */
  function GetWinnerByMatchID(matches: seq<Match>, id: string): (r: Option<Team>)
    ensures r.Some? ==> GetByID(matches, id).Some? && GetByID(matches, id).value.completed
    ensures r.Some? ==> GetByID(matches, id).value.winner == r
  {
    match GetByID(matches, id)
    case None => None
    case Some(m) => if m.completed then m.winner else None
  }

  /** The winner reported for an id is that of the first match carrying it,
      if that match is completed. */
  lemma WinnerOfFirst(matches: seq<Match>, id: string, k: nat)
    requires k < |matches| && matches[k].id == id
    requires forall j :: 0 <= j < k ==> matches[j].id != id
    ensures GetWinnerByMatchID(matches, id) == (if matches[k].completed then matches[k].winner else None)
  {
  }

  /** No match with the id, no winner. */
  lemma WinnerOfMissing(matches: seq<Match>, id: string)
    requires forall j :: 0 <= j < |matches| ==> matches[j].id != id
    ensures GetWinnerByMatchID(matches, id).None?
  {
  }

  /** The runner-up of a completed match with a winner: the side whose team
      is not the winner, compared by id. */
  function RunnerUp(m: Match): (r: Option<Team>)
    requires m.completed && m.winner.Some?
    ensures r.Some? ==> r == m.home.team || r == m.away.team
    ensures r.Some? && !IsTeamIDIdentical(m.home.team, m.away.team) ==> r.value.id != m.winner.value.id
  {
    var w := m.winner.value.id;
    if m.home.team.Some? && m.home.team.value.id == w then m.away.team
    else if m.away.team.Some? && m.away.team.value.id == w then m.home.team
    else None
  }

  /** MatchCollection.GetRunnerUpByMatchID. */
  function GetRunnerUpByMatchID(matches: seq<Match>, id: string): (r: Option<Team>)
    ensures r.Some? ==> GetWinnerByMatchID(matches, id).Some?
    ensures r.Some? ==> var m := GetByID(matches, id).value; r == m.home.team || r == m.away.team
  {
    match GetByID(matches, id)
    case None => None
    case Some(m) => if m.completed && m.winner.Some? then RunnerUp(m) else None
  }

  /** In a final between two different teams that has a winner among them,
      the runner-up is the other team. */
  lemma RunnerUpIsLoser(matches: seq<Match>, id: string, k: nat)
    requires k < |matches| && matches[k].id == id
    requires forall j :: 0 <= j < k ==> matches[j].id != id
    requires matches[k].completed
    requires matches[k].home.team.Some? && matches[k].away.team.Some?
    requires matches[k].home.team.value.id != matches[k].away.team.value.id
    requires matches[k].winner.Some?
    ensures matches[k].winner.value.id == matches[k].home.team.value.id
            ==> GetRunnerUpByMatchID(matches, id) == matches[k].away.team
    ensures matches[k].winner.value.id == matches[k].away.team.value.id
            ==> GetRunnerUpByMatchID(matches, id) == matches[k].home.team
    ensures matches[k].winner.value.id != matches[k].home.team.value.id
            && matches[k].winner.value.id != matches[k].away.team.value.id
            ==> GetRunnerUpByMatchID(matches, id).None?
  {
  }

  /** There is no runner-up without a completed match that has a winner. */
  lemma NoRunnerUpWithoutWinner(matches: seq<Match>, id: string)
    requires GetWinnerByMatchID(matches, id).None?
    ensures GetRunnerUpByMatchID(matches, id).None?
  {
  }

  // ---------------------------------------------------------------------
  // Validation of one match.

  /** isTeamIDIdentical: both teams present and sharing an id. */
  predicate IsTeamIDIdentical(a: Option<Team>, b: Option<Team>) {
    a.Some? && b.Some? && a.value.id == b.value.id
  }

  /** What isTeamNotOneOf decides: a present needle whose id no present
      team of the haystack has. */
  predicate NotOneOf(needle: Option<Team>, haystack: seq<Option<Team>>) {
    needle.Some? && forall i :: 0 <= i < |haystack| ==> haystack[i].None? || haystack[i].value.id != needle.value.id
  }

  /** isTeamNotOneOf, scanning the haystack and stopping at the first team
      with the needle's id. */
  method IsTeamNotOneOf(needle: Option<Team>, haystack: seq<Option<Team>>) returns (r: bool)
    ensures r == NotOneOf(needle, haystack)
  {
    if needle.None? {
      return false;
    }
    var i := 0;
    while i < |haystack|
      invariant 0 <= i <= |haystack|
      invariant forall j :: 0 <= j < i ==> haystack[j].None? || haystack[j].value.id != needle.value.id
    {
      if haystack[i].Some? && haystack[i].value.id == needle.value.id {
        return false;
      }
      i := i + 1;
    }
    return true;
  }

  /** A team with its id space-trimmed. */
  function TrimTeam(t: Option<Team>): (r: Option<Team>)
    ensures r.Some? <==> t.Some?
    ensures r.Some? ==> r.value == t.value.(id := Trim(t.value.id, ' '))
  {
    match t
    case None => None
    case Some(team) => Some(team.(id := Trim(team.id, ' ')))
  }

  /** The match as validateMatch leaves it: match id and the home, away and
      winner team ids trimmed of spaces; nothing else changes. */
  function TrimMatch(m: Match): (r: Match)
    ensures r.id == Trim(m.id, ' ')
    ensures r.timestamp == m.timestamp && r.stage == m.stage && r.completed == m.completed
    ensures r.home.(team := m.home.team) == m.home && r.away.(team := m.away.team) == m.away
    ensures r.home.team.Some? <==> m.home.team.Some?
    ensures r.away.team.Some? <==> m.away.team.Some?
    ensures r.winner.Some? <==> m.winner.Some?
  {
    m.(id := Trim(m.id, ' '),
       home := m.home.(team := TrimTeam(m.home.team)),
       away := m.away.(team := TrimTeam(m.away.team)),
       winner := TrimTeam(m.winner))
  }

  /** Trimming a trimmed match changes nothing more. */
  lemma TrimMatchIdempotent(m: Match)
    ensures TrimMatch(TrimMatch(m)) == TrimMatch(m)
  {
    TrimIdempotent(m.id, ' ');
    if m.home.team.Some? { TrimIdempotent(m.home.team.value.id, ' '); }
    if m.away.team.Some? { TrimIdempotent(m.away.team.value.id, ' '); }
    if m.winner.Some? { TrimIdempotent(m.winner.value.id, ' '); }
  }

  function IdenticalMessage(id: string): string {
    "home team id and away team id are identical: " + id
  }

  function WinnerMessage(id: string): string {
    "winning team id " + id + " must match either home or away team id"
  }

  /** The four checks of validateMatch on an already trimmed match, each
      giving the message it reports, if any. */
  function IdCheck(t: Match): Option<string> {
    if t.id == "" then Some(Wrap("id", ErrIsEmpty)) else None
  }

  function TimestampCheck(t: Match): Option<string> {
    if t.timestamp == ZeroTime then Some(Wrap("timestamp", ErrIsEmpty)) else None
  }

  function IdenticalCheck(t: Match): Option<string> {
    if IsTeamIDIdentical(t.home.team, t.away.team) then Some(IdenticalMessage(t.home.team.value.id)) else None
  }

  function WinnerCheck(t: Match): Option<string> {
    if NotOneOf(t.winner, [t.home.team, t.away.team]) then Some(WinnerMessage(t.winner.value.id)) else None
  }

  /** The problems validateMatch reports for an already trimmed match, in
      the order it checks them. */
  function MatchProblems(t: Match): seq<string> {
    OptionToSeq(IdCheck(t)) + OptionToSeq(TimestampCheck(t))
    + OptionToSeq(IdenticalCheck(t)) + OptionToSeq(WinnerCheck(t))
  }

  /** A structurally sound match: an id, a timestamp, two different teams
      when both are given, and a winner, if any, that is one of them. */
  predicate WellFormed(t: Match) {
    && t.id != ""
    && t.timestamp != ZeroTime
    && !(t.home.team.Some? && t.away.team.Some? && t.home.team.value.id == t.away.team.value.id)
    && (t.winner.Some? ==> (t.home.team.Some? && t.home.team.value.id == t.winner.value.id)
                           || (t.away.team.Some? && t.away.team.value.id == t.winner.value.id))
  }

  /** isTeamNotOneOf against a home and an away team. */
  lemma NotOneOfPair(needle: Option<Team>, home: Option<Team>, away: Option<Team>)
    ensures NotOneOf(needle, [home, away])
            <==> needle.Some?
                 && (home.None? || home.value.id != needle.value.id)
                 && (away.None? || away.value.id != needle.value.id)
  {
    var hs := [home, away];
    assert hs[0] == home && hs[1] == away;
  }

  /** A match draws no complaint exactly when it is well formed. */
  lemma MatchProblemsEmpty(t: Match)
    ensures MatchProblems(t) == [] <==> WellFormed(t)
  {
    NotOneOfPair(t.winner, t.home.team, t.away.team);
  }

  /** The winner check fires exactly when there is a winner that neither
      present side has; in particular never for a match without a winner. */
  lemma WinnerCheckFires(t: Match)
    ensures WinnerCheck(t).Some?
            <==> t.winner.Some?
                 && (t.home.team.None? || t.home.team.value.id != t.winner.value.id)
                 && (t.away.team.None? || t.away.team.value.id != t.winner.value.id)
  {
    NotOneOfPair(t.winner, t.home.team, t.away.team);
  }

  /** One more check's outcome added through `ps`. */
  lemma CheckStep(base: seq<string>, ps: seq<string>, acc: seq<string>, o: Option<string>)
    ensures (base + ScopedAll(ps, acc)) + ScopedAll(ps, OptionToSeq(o))
            == base + ScopedAll(ps, acc + OptionToSeq(o))
  {
    ScopedAllExtend(base, ps, acc, OptionToSeq(o));
  }

  /** validateMatch: trims the ids in place and reports what is wrong with
      the result. */
  method ValidateMatch(raw: Match, m: MultiError) returns (t: Match)
    modifies m.list
    ensures t == TrimMatch(raw)
    ensures m.list.errs == old(m.list.errs) + ScopedAll(m.prefixes, MatchProblems(t))
  {
    t := TrimMatch(raw);
    ghost var base := m.list.errs;
    m.Add(IdCheck(t));
    ghost var acc := OptionToSeq(IdCheck(t));
    assert m.list.errs == base + ScopedAll(m.prefixes, acc);
    CheckStep(base, m.prefixes, acc, TimestampCheck(t));
    m.Add(TimestampCheck(t));
    acc := acc + OptionToSeq(TimestampCheck(t));
    assert m.list.errs == base + ScopedAll(m.prefixes, acc);
    CheckStep(base, m.prefixes, acc, IdenticalCheck(t));
    m.Add(IdenticalCheck(t));
    acc := acc + OptionToSeq(IdenticalCheck(t));
    assert m.list.errs == base + ScopedAll(m.prefixes, acc);
    CheckStep(base, m.prefixes, acc, WinnerCheck(t));
    var stray := IsTeamNotOneOf(t.winner, [t.home.team, t.away.team]);
    if stray {
      m.Add(Some(WinnerMessage(t.winner.value.id)));
    } else {
      m.Add(None);
    }
    acc := acc + OptionToSeq(WinnerCheck(t));
    assert m.list.errs == base + ScopedAll(m.prefixes, acc);
  }

  // ---------------------------------------------------------------------
  // Validation of a collection.

  function IndexLabel(idx: nat): string {
    "index " + IntToString(idx)
  }

  function DuplicateMessage(id: string): string {
    Wrap("id '" + id + "'", ErrIsDuplicate)
  }

  /** The ids of the matches once trimmed, in order. */
  function TrimmedIds(ms: seq<Match>): seq<string>
    decreases |ms|
  {
    if ms == [] then [] else TrimmedIds(ms[..|ms| - 1]) + [Trim(ms[|ms| - 1].id, ' ')]
  }

  /** The set of trimmed ids validateMatches has recorded after `ms`. */
  function IdSet(ms: seq<Match>): set<string>
    decreases |ms|
  {
    if ms == [] then {} else IdSet(ms[..|ms| - 1]) + {Trim(ms[|ms| - 1].id, ' ')}
  }

  lemma {:induction false} IdSetMembers(ms: seq<Match>, x: string)
    ensures x in IdSet(ms) <==> x in TrimmedIds(ms)
    decreases |ms|
  {
    if ms != [] {
      IdSetMembers(ms[..|ms| - 1], x);
    }
  }

  /** The matches as validateMatches leaves them: each one trimmed. */
  function TrimAll(ms: seq<Match>): (r: seq<Match>)
    ensures |r| == |ms|
    decreases |ms|
  {
    if ms == [] then [] else TrimAll(ms[..|ms| - 1]) + [TrimMatch(ms[|ms| - 1])]
  }

  /** Trimming the collection trims each match in its own place. */
  lemma {:induction false} TrimAllIndex(ms: seq<Match>)
    ensures |TrimAll(ms)| == |ms|
    ensures forall i :: 0 <= i < |ms| ==> TrimAll(ms)[i] == TrimMatch(ms[i])
    decreases |ms|
  {
    if ms != [] {
      TrimAllIndex(ms[..|ms| - 1]);
    }
  }

  lemma TrimAllStep(ms: seq<Match>, i: nat)
    requires i < |ms|
    ensures TrimAll(ms[..i + 1]) == TrimAll(ms[..i]) + [TrimMatch(ms[i])]
  {
    assert ms[..i + 1][..i] == ms[..i];
  }

  /** What is reported for the match at position `|init|` after `init`:
      its own problems, then a duplicate complaint when an earlier match
      has the same trimmed id. */
  function EntryProblems(init: seq<Match>, raw: Match): seq<string> {
    var t := TrimMatch(raw);
    MatchProblems(t) + (if t.id in IdSet(init) then [DuplicateMessage(t.id)] else [])
  }

  /** Everything validateMatches reports, each under its 0-based index. */
  function MatchesProblems(ms: seq<Match>): seq<string>
    decreases |ms|
  {
    if ms == [] then []
    else
      var init := ms[..|ms| - 1];
      MatchesProblems(init) + ScopedAll([IndexLabel(|init|)], EntryProblems(init, ms[|ms| - 1]))
  }

  lemma MatchesProblemsStep(ms: seq<Match>, i: nat)
    requires i < |ms|
    ensures MatchesProblems(ms[..i + 1])
            == MatchesProblems(ms[..i]) + ScopedAll([IndexLabel(i)], EntryProblems(ms[..i], ms[i]))
  {
    assert ms[..i + 1][..i] == ms[..i];
  }

  lemma IdSetStep(ms: seq<Match>, i: nat)
    requires i < |ms|
    ensures IdSet(ms[..i + 1]) == IdSet(ms[..i]) + {Trim(ms[i].id, ' ')}
  {
    assert ms[..i + 1][..i] == ms[..i];
  }

  lemma DistinctSnoc(s: seq<string>, x: string)
    ensures Distinct(s + [x]) <==> Distinct(s) && x !in s
  {
    var t := s + [x];
    assert forall i :: 0 <= i < |s| ==> t[i] == s[i];
    assert t[|s|] == x;
  }

  /** The same, for a sequence split before its last element. */
  lemma DistinctLast(s: seq<string>)
    requires s != []
    ensures Distinct(s) <==> Distinct(s[..|s| - 1]) && s[|s| - 1] !in s[..|s| - 1]
  {
    DistinctSnoc(s[..|s| - 1], s[|s| - 1]);
    assert s[..|s| - 1] + [s[|s| - 1]] == s;
  }

  /** An entry adds nothing exactly when its match is well formed and its
      trimmed id is new. */
  lemma EntryProblemsEmpty(init: seq<Match>, raw: Match)
    ensures EntryProblems(init, raw) == []
            <==> WellFormed(TrimMatch(raw)) && Trim(raw.id, ' ') !in TrimmedIds(init)
  {
    MatchProblemsEmpty(TrimMatch(raw));
    IdSetMembers(init, Trim(raw.id, ' '));
  }

  /** The collection's report is empty exactly when the report before the
      last match and the last match's entry are. */
  lemma MatchesProblemsSnoc(ms: seq<Match>)
    requires ms != []
    ensures MatchesProblems(ms) == []
            <==> MatchesProblems(ms[..|ms| - 1]) == [] && EntryProblems(ms[..|ms| - 1], ms[|ms| - 1]) == []
  {
    var init := ms[..|ms| - 1];
    var e := ScopedAll([IndexLabel(|init|)], EntryProblems(init, ms[|ms| - 1]));
    assert |e| == |EntryProblems(init, ms[|ms| - 1])|;
  }

  /** Every match of `ms` is well formed once trimmed. */
  predicate AllWellFormed(ms: seq<Match>) {
    forall i :: 0 <= i < |ms| ==> WellFormed(TrimMatch(ms[i]))
  }

  lemma AllWellFormedSnoc(ms: seq<Match>)
    requires ms != []
    ensures AllWellFormed(ms) <==> AllWellFormed(ms[..|ms| - 1]) && WellFormed(TrimMatch(ms[|ms| - 1]))
  {
    var init := ms[..|ms| - 1];
    assert forall i :: 0 <= i < |init| ==> init[i] == ms[i];
  }

  /** validateMatches accepts a collection exactly when every match is well
      formed once trimmed and no two trimmed ids coincide. */
  lemma {:induction false} MatchesProblemsEmpty(ms: seq<Match>)
    ensures MatchesProblems(ms) == [] <==> AllWellFormed(ms) && Distinct(TrimmedIds(ms))
    decreases |ms|
  {
    if ms != [] {
      var init, last := ms[..|ms| - 1], ms[|ms| - 1];
      MatchesProblemsEmpty(init);
      MatchesProblemsSnoc(ms);
      EntryProblemsEmpty(init, last);
      DistinctSnoc(TrimmedIds(init), Trim(last.id, ' '));
      AllWellFormedSnoc(ms);
    }
  }

  /** One round of validateMatches: validates the match at `idx` under its
      index, and reports it as a duplicate when `ids`, the trimmed ids seen
      so far, already holds its trimmed id. */
  method ValidateEntry(matches: seq<Match>, idx: nat, ids: set<string>, m: MultiError) returns (t: Match)
    requires idx < |matches|
    requires ids == IdSet(matches[..idx])
    modifies m.list
    ensures t == TrimMatch(matches[idx])
    ensures m.list.errs == old(m.list.errs) + ScopedAll(m.prefixes + [IndexLabel(idx)], EntryProblems(matches[..idx], matches[idx]))
  {
    var view := m.WithPrefix(IndexLabel(idx));
    t := ValidateMatch(matches[idx], view);
    ghost var entry := MatchProblems(t);
    if t.id in ids {
      ScopedAllExtend(old(m.list.errs), view.prefixes, entry, [DuplicateMessage(t.id)]);
      view.Add(Some(DuplicateMessage(t.id)));
      entry := entry + [DuplicateMessage(t.id)];
    } else {
      assert entry + [] == entry;
    }
    assert entry == EntryProblems(matches[..idx], matches[idx]);
  }

  /** validateMatches: every match is validated in turn, under its index; a
      match whose trimmed id an earlier match already had is reported as a
      duplicate. Any report rejects the whole collection. */
  method ValidateMatches(matches: seq<Match>) returns (r: Result<seq<Match>, Failure>)
    ensures r.Success? <==> MatchesProblems(matches) == []
    ensures r.Success? ==> r.value == TrimAll(matches)
    ensures r.Failure? ==> r.error == Aggregate(MatchesProblems(matches))
  {
    var m := new MultiError();
    var ids: set<string> := {};
    var out: seq<Match> := [];
    var idx := 0;
    while idx < |matches|
      invariant 0 <= idx <= |matches|
      invariant out == TrimAll(matches[..idx])
      invariant ids == IdSet(matches[..idx])
      invariant m.prefixes == []
      invariant m.list.errs == MatchesProblems(matches[..idx])
    {
      var t := ValidateEntry(matches, idx, ids, m);
      assert m.prefixes + [IndexLabel(idx)] == [IndexLabel(idx)];
      MatchesProblemsStep(matches, idx);
      IdSetStep(matches, idx);
      TrimAllStep(matches, idx);
      ids := ids + {t.id};
      out := out + [t];
      idx := idx + 1;
    }
    assert matches[..idx] == matches;
    if !m.IsEmpty() {
      return Failure(Aggregate(m.list.errs));
    }
    return Success(out);
  }
}
