/** Tournaments: validation of a loaded tournament (trimming, required
    fields, resolving the matches' id-only teams against the tournament's
    teams, and checking that every team plays), the tournament collection
    and its duplicate check, and the stable sort of teams by name. */
module Tournaments {
  import opened Wrappers
  import opened Text
  import opened Sorting
  import opened Errors
  import opened Teams
  import opened Matches

  class Tournament {
    var id: string
    var name: string
    var imageUrl: string
    const teams: seq<Team>
    var matches: seq<Match>
    var withLastUpdated: bool

    constructor (id: string, name: string, imageUrl: string, teams: seq<Team>, matches: seq<Match>, withLastUpdated: bool)
      ensures this.id == id && this.name == name && this.imageUrl == imageUrl
      ensures this.teams == teams && this.matches == matches && this.withLastUpdated == withLastUpdated
    {
      this.id := id;
      this.name := name;
      this.imageUrl := imageUrl;
      this.teams := teams;
      this.matches := matches;
      this.withLastUpdated := withLastUpdated;
    }
  }

  // ---------------------------------------------------------------------
  // Loader configuration.

  /** TournamentFSLoader.init as written: the first missing setting is
      reported, but a missing markup path is reported as a missing config
      path. */
  function LoaderInitAsWritten(configPath: string, markupPath: string, hasTeamsLoader: bool, hasMatchesLoader: bool): Option<string> {
    if configPath == "" then Some(Wrap("config path", ErrIsEmpty))
    else if markupPath == "" then Some(Wrap("config path", ErrIsEmpty))
    else if !hasTeamsLoader then Some(Wrap("teams loader", ErrIsEmpty))
    else if !hasMatchesLoader then Some(Wrap("matches loader", ErrIsEmpty))
    else None
  }

  /** With the config path set and the markup path missing, the report
      names the config path. */
  lemma LoaderInitMisnames(configPath: string, hasTeamsLoader: bool, hasMatchesLoader: bool)
    requires configPath != ""
    ensures LoaderInitAsWritten(configPath, "", hasTeamsLoader, hasMatchesLoader) == Some("config path: is empty")
  {
    assert Wrap("config path", ErrIsEmpty) == "config path: is empty";
  }

  /** TournamentFSLoader.init as evidently intended: each missing setting is
      reported under its own name. */
  function LoaderInit(configPath: string, markupPath: string, hasTeamsLoader: bool, hasMatchesLoader: bool): Option<string> {
    if configPath == "" then Some(Wrap("config path", ErrIsEmpty))
    else if markupPath == "" then Some(Wrap("markup path", ErrIsEmpty))
    else if !hasTeamsLoader then Some(Wrap("teams loader", ErrIsEmpty))
    else if !hasMatchesLoader then Some(Wrap("matches loader", ErrIsEmpty))
    else None
  }

  /** The loader starts exactly when every setting is present, and a report
      about the config path means the config path is missing. */
  lemma LoaderInitNamesSetting(configPath: string, markupPath: string, hasTeamsLoader: bool, hasMatchesLoader: bool)
    ensures LoaderInit(configPath, markupPath, hasTeamsLoader, hasMatchesLoader).None?
            <==> configPath != "" && markupPath != "" && hasTeamsLoader && hasMatchesLoader
    ensures LoaderInit(configPath, markupPath, hasTeamsLoader, hasMatchesLoader) == Some("config path: is empty")
            <==> configPath == ""
    ensures LoaderInit(configPath, markupPath, hasTeamsLoader, hasMatchesLoader) == Some("markup path: is empty")
            <==> configPath != "" && markupPath == ""
  {
    assert Wrap("config path", ErrIsEmpty) == "config path: is empty";
    assert Wrap("markup path", ErrIsEmpty) == "markup path: is empty";
    assert Wrap("teams loader", ErrIsEmpty) == "teams loader: is empty";
    assert Wrap("matches loader", ErrIsEmpty) == "matches loader: is empty";
    assert "config path: is empty"[0] == 'c' && "markup path: is empty"[0] == 'm';
    assert "teams loader: is empty"[0] == 't' && "matches loader: is empty"[0] == 'm';
    assert "markup path: is empty"[2] == 'r' && "matches loader: is empty"[2] == 't';
  }

  // ---------------------------------------------------------------------
  // Required fields.

  /** The problems of a record whose trimmed id, name and image url are
      given: each one that is empty, in that order. */
  function RequiredFields(id: string, name: string, imageUrl: string): seq<string> {
    OptionToSeq(Required("id", id)) + OptionToSeq(Required("name", name)) + OptionToSeq(Required("image url", imageUrl))
  }

  /** The required fields are clean exactly when none is empty. */
  lemma RequiredFieldsEmpty(id: string, name: string, imageUrl: string)
    ensures RequiredFields(id, name, imageUrl) == [] <==> id != "" && name != "" && imageUrl != ""
    ensures |RequiredFields(id, name, imageUrl)| <= 3
  {
  }

  /** Adds three checks' outcomes to `m`, in order. */
  method AddThree(a: Option<string>, b: Option<string>, c: Option<string>, m: MultiError)
    modifies m.list
    ensures m.list.errs == old(m.list.errs) + ScopedAll(m.prefixes, OptionToSeq(a) + OptionToSeq(b) + OptionToSeq(c))
  {
    m.Add(a);
    CheckStep(old(m.list.errs), m.prefixes, OptionToSeq(a), b);
    m.Add(b);
    CheckStep(old(m.list.errs), m.prefixes, OptionToSeq(a) + OptionToSeq(b), c);
    m.Add(c);
  }

  /** The problem of one required field. */
  function Required(field: string, value: string): Option<string> {
    if value == "" then Some(Wrap(field, ErrIsEmpty)) else None
  }

  /** Adds the problems of the required fields to `m`. */
  method AddRequired(id: string, name: string, imageUrl: string, m: MultiError)
    modifies m.list
    ensures m.list.errs == old(m.list.errs) + ScopedAll(m.prefixes, RequiredFields(id, name, imageUrl))
  {
    AddThree(Required("id", id), Required("name", name), Required("image url", imageUrl), m);
  }

  // ---------------------------------------------------------------------
  // Resolving teams.

  function NotFoundMessage(id: string): string {
    Wrap("team id '" + id + "'", ErrNotFound)
  }

  /** A reference that resolution accepts: absent, without an id, or
      naming one of `teams`. */
  predicate Resolvable(team: Option<Team>, teams: seq<Team>) {
    team.None? || team.value.id == "" || team.value.id in TeamIds(teams)
  }

  /** A team reference after resolution, and the problem met. */
  datatype Populated = Populated(team: Option<Team>, err: Option<string>)

  /** populateTeamByID: a missing reference or an empty id is left alone; a
      known id is replaced by the first team of `teams` with that id, every
      field copied; an unknown id is left alone and reported. */
  function PopulateTeamByID(team: Option<Team>, teams: seq<Team>): (r: Populated)
    ensures r.team.Some? <==> team.Some?
    ensures r.team.Some? ==> r.team.value.id == team.value.id
    ensures team.None? || team.value.id == "" ==> r == Populated(team, None)
    ensures r.err.None? <==> Resolvable(team, teams)
  {
    if team.None? || team.value.id == "" then Populated(team, None)
    else match Teams.GetByID(teams, team.value.id)
      case None => Populated(team, Some(NotFoundMessage(team.value.id)))
      case Some(t) => Populated(Some(t), None)
  }

  /** A reference whose id belongs to a team is resolved to the first such
      team without a problem. */
  lemma PopulateFound(team: Option<Team>, teams: seq<Team>, k: nat)
    requires team.Some? && team.value.id != ""
    requires k < |teams| && teams[k].id == team.value.id
    requires forall j :: 0 <= j < k ==> teams[j].id != team.value.id
    ensures PopulateTeamByID(team, teams) == Populated(Some(teams[k]), None)
  {
  }

  /** A reference whose id belongs to no team is kept, and reported. */
  lemma PopulateMissing(team: Option<Team>, teams: seq<Team>)
    requires team.Some? && team.value.id != ""
    requires forall j :: 0 <= j < |teams| ==> teams[j].id != team.value.id
    ensures PopulateTeamByID(team, teams) == Populated(team, Some("team id '" + team.value.id + "': not found"))
  {
    var x := "team id '" + team.value.id;
    ConcatAssoc(x + "'", ": ", "not found");
    assert ": " + "not found" == ": not found";
    ConcatAssoc(x, "'", ": not found");
    assert "'" + ": not found" == "': not found";
  }

  /** Resolving an already resolved reference changes nothing and reports
      the same. A corollary of PopulateTeamByID's contract. */
  lemma PopulateIdempotent(team: Option<Team>, teams: seq<Team>)
    ensures PopulateTeamByID(PopulateTeamByID(team, teams).team, teams) == PopulateTeamByID(team, teams)
  {
  }

  /** Meeting a resolved reference counts what meeting the reference would:
      resolution keeps ids. A corollary of PopulateTeamByID's contract. */
  lemma AckedPopulated(counts: map<string, nat>, team: Option<Team>, teams: seq<Team>)
    ensures Acked(counts, PopulateTeamByID(team, teams).team) == Acked(counts, team)
  {
  }

  /** A problem of one side, under the side's name. */
  function Within(side: string, err: Option<string>): Option<string> {
    if err.Some? then Some(Wrap(side, err.value)) else None
  }

  /** A match whose references all resolve. */
  predicate MatchResolvable(m: Match, teams: seq<Team>) {
    Resolvable(m.home.team, teams) && Resolvable(m.away.team, teams) && Resolvable(m.winner, teams)
  }

  /** One match of validateTournament: home, away and winner are resolved
      in that order, each problem under "home", "away" or "winner". */
  function EnrichMatch(mt: Match, teams: seq<Team>): (r: Checked<Match>)
    ensures r.errs == [] <==> MatchResolvable(mt, teams)
  {
    var h := PopulateTeamByID(mt.home.team, teams);
    var a := PopulateTeamByID(mt.away.team, teams);
    var w := PopulateTeamByID(mt.winner, teams);
    Checked(
      mt.(home := mt.home.(team := h.team), away := mt.away.(team := a.team), winner := w.team),
      OptionToSeq(Within("home", h.err)) + OptionToSeq(Within("away", a.err)) + OptionToSeq(Within("winner", w.err)))
  }

  /** What each match is resolved to. */
  function Enrichments(ms: seq<Match>, teams: seq<Team>): (r: seq<Checked<Match>>)
    ensures |r| == |ms|
  {
    seq(|ms|, i requires 0 <= i < |ms| => EnrichMatch(ms[i], teams))
  }

  /** Resolution changes only the teams of a match: its id, timestamp,
      stage, scores, events and completion stay, and so do its teams' ids. */
  lemma EnrichMatchKeeps(mt: Match, teams: seq<Team>)
    ensures var r := EnrichMatch(mt, teams).value;
            r.id == mt.id && r.timestamp == mt.timestamp && r.stage == mt.stage && r.completed == mt.completed
            && r.home.(team := mt.home.team) == mt.home && r.away.(team := mt.away.team) == mt.away
            && (r.home.team.Some? <==> mt.home.team.Some?) && (r.winner.Some? <==> mt.winner.Some?)
            && (r.home.team.Some? ==> r.home.team.value.id == mt.home.team.value.id)
            && (r.away.team.Some? <==> mt.away.team.Some?)
            && (r.away.team.Some? ==> r.away.team.value.id == mt.away.team.value.id)
            && (r.winner.Some? ==> r.winner.value.id == mt.winner.value.id)
  {
  }

  /** The home and away teams of `ms`, in order: the teams the audit meets. */
  function MatchSides(ms: seq<Match>): (r: seq<Option<Team>>)
    ensures |r| == 2 * |ms|
    decreases |ms|
  {
    if ms == [] then []
    else
      var last := ms[|ms| - 1];
      MatchSides(ms[..|ms| - 1]) + [last.home.team, last.away.team]
  }

  lemma MatchSidesStep(ms: seq<Match>, i: nat)
    requires i < |ms|
    ensures MatchSides(ms[..i + 1]) == MatchSides(ms[..i]) + [ms[i].home.team, ms[i].away.team]
  {
    assert ms[..i + 1][..i] == ms[..i];
  }

  /** Replacing the next unprocessed element. */
  lemma ReplaceNext<T>(done: seq<T>, rest: seq<T>, x: T)
    requires rest != []
    ensures (done + rest)[|done|] == rest[0]
    ensures (done + rest)[|done| := x] == (done + [x]) + rest[1..]
  {
  }

  /** Every problem of validateTournament, in order: the required fields,
      the resolution of every match, then the teams that play in no match. */
  function TournamentProblems(id: string, name: string, imageUrl: string, teams: seq<Team>, matches: seq<Match>): seq<string> {
    RequiredFields(Trim(id, ' '), Trim(name, ' '), Trim(imageUrl, ' '))
      + (NumberedProblems("match", Enrichments(matches, teams)) + AuditProblems(teams, MatchSides(matches), false))
  }

  /** `m` has a present home or away team with id `id`. */
  predicate Plays(m: Match, id: string) {
    (m.home.team.Some? && m.home.team.value.id == id) || (m.away.team.Some? && m.away.team.value.id == id)
  }

  /** Meeting the sides of one more match. */
  lemma SidesOccurrencesSnoc(ms: seq<Match>, id: string)
    requires ms != []
    ensures var last := ms[|ms| - 1];
            Occurrences(MatchSides(ms), id) > 0
            <==> Occurrences(MatchSides(ms[..|ms| - 1]), id) > 0 || Plays(last, id)
  {
    var last := ms[|ms| - 1];
    var s := MatchSides(ms[..|ms| - 1]);
    assert MatchSides(ms) == (s + [last.home.team]) + [last.away.team];
    assert (s + [last.home.team])[..|s|] == s;
  }

  /** Some match of `init + [last]` plays `id` exactly when one of `init`
      does or `last` does. */
  lemma PlaysSnoc(init: seq<Match>, last: Match, id: string)
    ensures (exists i :: 0 <= i < |init + [last]| && Plays((init + [last])[i], id))
            <==> (exists i :: 0 <= i < |init| && Plays(init[i], id)) || Plays(last, id)
  {
    var ms := init + [last];
    if exists i :: 0 <= i < |init| && Plays(init[i], id) {
      var i :| 0 <= i < |init| && Plays(init[i], id);
      assert ms[i] == init[i];
    }
    assert ms[|init|] == last;
  }

  /** A team is met by the audit exactly when it plays in some match. */
  lemma {:induction false} MatchSidesOccurrences(ms: seq<Match>, id: string)
    ensures Occurrences(MatchSides(ms), id) > 0 <==> exists i :: 0 <= i < |ms| && Plays(ms[i], id)
    decreases |ms|
  {
    if ms != [] {
      MatchSidesOccurrences(ms[..|ms| - 1], id);
      SidesOccurrencesSnoc(ms, id);
      PlaysSnoc(ms[..|ms| - 1], ms[|ms| - 1], id);
      assert ms[..|ms| - 1] + [ms[|ms| - 1]] == ms;
    }
  }

  /** Resolving the matches meets no problem exactly when every match's
      references resolve. */
  lemma EnrichedClean(matches: seq<Match>, teams: seq<Team>)
    ensures NumberedProblems("match", Enrichments(matches, teams)) == []
            <==> forall i :: 0 <= i < |matches| ==> MatchResolvable(matches[i], teams)
  {
    var es := Enrichments(matches, teams);
    NumberedProblemsEmpty("match", es);
    assert forall i :: 0 <= i < |matches| ==> es[i] == EnrichMatch(matches[i], teams);
  }

  /** The audit of a tournament reports nothing exactly when every one of
      its teams plays in some match. */
  lemma TournamentAuditEmpty(teams: seq<Team>, matches: seq<Match>)
    ensures AuditProblems(teams, MatchSides(matches), false) == []
            <==> forall tid :: tid in TeamIds(teams) ==> exists i :: 0 <= i < |matches| && Plays(matches[i], tid)
  {
    var sides := MatchSides(matches);
    AuditProblemsEmpty(teams, sides, false);
    forall tid | tid in TeamIds(teams)
      ensures !Reported(Occurrences(sides, tid), false) <==> exists i :: 0 <= i < |matches| && Plays(matches[i], tid)
    {
      MatchSidesOccurrences(matches, tid);
    }
  }

  /** validateTournament accepts a tournament exactly when its trimmed id,
      name and image url are set, every present home, away and winner team
      with an id names one of its teams, and every one of its teams plays in
      some match. */
  lemma TournamentProblemsEmpty(id: string, name: string, imageUrl: string, teams: seq<Team>, matches: seq<Match>)
    ensures TournamentProblems(id, name, imageUrl, teams, matches) == []
            <==> Trim(id, ' ') != "" && Trim(name, ' ') != "" && Trim(imageUrl, ' ') != ""
                 && (forall i :: 0 <= i < |matches| ==> MatchResolvable(matches[i], teams))
                 && (forall tid :: tid in TeamIds(teams) ==> exists i :: 0 <= i < |matches| && Plays(matches[i], tid))
  {
    RequiredFieldsEmpty(Trim(id, ' '), Trim(name, ' '), Trim(imageUrl, ' '));
    EnrichedClean(matches, teams);
    TournamentAuditEmpty(teams, matches);
  }

  /** The audit of a tournament reports a team exactly when it is one of the
      tournament's teams and is neither home nor away in any match, and
      then with count zero. */
  lemma TournamentAudit(teams: seq<Team>, matches: seq<Match>, id: string, n: nat)
    ensures CountMessage(id, n) in AuditProblems(teams, MatchSides(matches), false)
            <==> id in TeamIds(teams) && n == 0 && Occurrences(MatchSides(matches), id) == 0
  {
    AuditReport(teams, MatchSides(matches), false, id, n);
  }

  /** The loop of validateTournament: every match is resolved in place, its
      problems added under "match <k>", and its home and away teams met by
      the audit. */
  method EnrichMatches(t: Tournament, audit: TeamsAudit, m: MultiError)
    requires audit.Valid()
    modifies t`matches, audit`counts, m.list
    ensures audit.Valid()
    ensures t.matches == Values(Enrichments(old(t.matches), t.teams))
    ensures audit.counts == AckAll(old(audit.counts), MatchSides(old(t.matches)))
    ensures m.list.errs == old(m.list.errs) + ScopedAll(m.prefixes, NumberedProblems("match", Enrichments(old(t.matches), t.teams)))
  {
    ghost var ms := t.matches;
    ghost var base := m.list.errs;
    ghost var zero := audit.counts;
    var n := |t.matches|;
    var idx := 0;
    assert ms[0..] == ms;
    while idx < n
      invariant n == |ms|
      invariant 0 <= idx <= |ms|
      invariant audit.Valid()
      invariant t.matches == Values(Enrichments(ms, t.teams)[..idx]) + ms[idx..]
      invariant audit.counts == AckAll(zero, MatchSides(ms[..idx]))
      invariant m.list.errs == base + ScopedAll(m.prefixes, NumberedProblems("match", Enrichments(ms, t.teams)[..idx]))
    {
      EnrichAt(t, idx, audit, m, ms, base, zero);
      idx := idx + 1;
    }
    assert Enrichments(ms, t.teams)[..idx] == Enrichments(ms, t.teams);
    assert ms[..idx] == ms;
  }

  /** One round of the loop of validateTournament, on the match at `idx`. */
  method EnrichAt(t: Tournament, idx: nat, audit: TeamsAudit, m: MultiError,
                  ghost ms: seq<Match>, ghost base: seq<string>, ghost zero: map<string, nat>)
    requires audit.Valid() && idx < |ms|
    requires t.matches == Values(Enrichments(ms, t.teams)[..idx]) + ms[idx..]
    requires audit.counts == AckAll(zero, MatchSides(ms[..idx]))
    requires m.list.errs == base + ScopedAll(m.prefixes, NumberedProblems("match", Enrichments(ms, t.teams)[..idx]))
    modifies t`matches, audit`counts, m.list
    ensures audit.Valid()
    ensures t.matches == Values(Enrichments(ms, t.teams)[..idx + 1]) + ms[idx + 1..]
    ensures audit.counts == AckAll(zero, MatchSides(ms[..idx + 1]))
    ensures m.list.errs == base + ScopedAll(m.prefixes, NumberedProblems("match", Enrichments(ms, t.teams)[..idx + 1]))
  {
    ghost var es := Enrichments(ms, t.teams);
    EnrichLoopStep(ms, t.teams, idx);
    SidesAckStep(zero, ms, idx);
    var e := EnrichOne(t.matches[idx], t.teams, audit, Numbered("match", idx + 1), m);
    NestStep(base, m.prefixes, NumberedProblems("match", es[..idx]), Numbered("match", idx + 1), es[idx].errs);
    t.matches := t.matches[idx := e];
  }

  /** What one round of the loop does to the matches and to the problems. */
  lemma EnrichLoopStep(ms: seq<Match>, teams: seq<Team>, idx: nat)
    requires idx < |ms|
    ensures var es := Enrichments(ms, teams);
            var cur := Values(es[..idx]) + ms[idx..];
            cur[idx] == ms[idx]
            && cur[idx := EnrichMatch(ms[idx], teams).value] == Values(es[..idx + 1]) + ms[idx + 1..]
            && NumberedProblems("match", es[..idx + 1])
               == NumberedProblems("match", es[..idx]) + ScopedAll([Numbered("match", idx + 1)], EnrichMatch(ms[idx], teams).errs)
  {
    var es := Enrichments(ms, teams);
    NumberedStep("match", es, idx);
    ReplaceNext(Values(es[..idx]), ms[idx..], es[idx].value);
    assert ms[idx..][1..] == ms[idx + 1..];
  }

  /** What one round of the loop does to the audit's counters. */
  lemma SidesAckStep(counts: map<string, nat>, ms: seq<Match>, idx: nat)
    requires idx < |ms|
    ensures AckAll(counts, MatchSides(ms[..idx + 1]))
            == Acked(Acked(AckAll(counts, MatchSides(ms[..idx])), ms[idx].home.team), ms[idx].away.team)
  {
    var sides := MatchSides(ms[..idx + 1]);
    MatchSidesStep(ms, idx);
    AckAllStep(counts, sides, 2 * idx);
    AckAllStep(counts, sides, 2 * idx + 1);
    assert sides[..2 * idx] == MatchSides(ms[..idx]);
    assert sides[..2 * idx + 2] == sides;
  }

  /** One round of the loop: resolves the match's references, adds their
      problems under `q`, and lets the audit meet home and away. */
  method EnrichOne(raw: Match, teams: seq<Team>, audit: TeamsAudit, q: string, m: MultiError)
      returns (e: Match)
    requires audit.Valid()
    modifies audit`counts, m.list
    ensures audit.Valid()
    ensures e == EnrichMatch(raw, teams).value
    ensures audit.counts == Acked(Acked(old(audit.counts), raw.home.team), raw.away.team)
    ensures m.list.errs == old(m.list.errs) + ScopedAll(m.prefixes + [q], EnrichMatch(raw, teams).errs)
  {
    var view := m.WithPrefix(q);
    var h := PopulateTeamByID(raw.home.team, teams);
    var a := PopulateTeamByID(raw.away.team, teams);
    var w := PopulateTeamByID(raw.winner, teams);
    AddThree(Within("home", h.err), Within("away", a.err), Within("winner", w.err), view);
    e := raw.(home := raw.home.(team := h.team), away := raw.away.(team := a.team), winner := w.team);
    var _ := audit.Ack(e.home.team);
    var _ := audit.Ack(e.away.team);
    AckedPopulated(old(audit.counts), raw.home.team, teams);
    AckedPopulated(Acked(old(audit.counts), raw.home.team), raw.away.team, teams);
  }

  /** validateTournament: trims the id, name and image url in place, checks
      them, resolves every match's teams in place, and audits that every
      team plays at least once. */
  method ValidateTournament(t: Tournament, m: MultiError)
    modifies t`id, t`name, t`imageUrl, t`matches, m.list
    ensures t.id == Trim(old(t.id), ' ') && t.name == Trim(old(t.name), ' ') && t.imageUrl == Trim(old(t.imageUrl), ' ')
    ensures t.matches == Values(Enrichments(old(t.matches), t.teams))
    ensures m.list.errs == old(m.list.errs)
                           + ScopedAll(m.prefixes, TournamentProblems(old(t.id), old(t.name), old(t.imageUrl), t.teams, old(t.matches)))
  {
    ValidateFields(t, m);
    ValidateMatchTeams(t, m);
    ScopedAllExtend(old(m.list.errs), m.prefixes,
                    RequiredFields(Trim(old(t.id), ' '), Trim(old(t.name), ' '), Trim(old(t.imageUrl), ' ')),
                    NumberedProblems("match", Enrichments(old(t.matches), t.teams)) + AuditProblems(t.teams, MatchSides(old(t.matches)), false));
  }

  /** The first part of validateTournament: the trimmed required fields. */
  method ValidateFields(t: Tournament, m: MultiError)
    modifies t`id, t`name, t`imageUrl, m.list
    ensures t.id == Trim(old(t.id), ' ') && t.name == Trim(old(t.name), ' ') && t.imageUrl == Trim(old(t.imageUrl), ' ')
    ensures m.list.errs == old(m.list.errs) + ScopedAll(m.prefixes, RequiredFields(t.id, t.name, t.imageUrl))
  {
    t.id := Trim(t.id, ' ');
    t.name := Trim(t.name, ' ');
    t.imageUrl := Trim(t.imageUrl, ' ');
    AddRequired(t.id, t.name, t.imageUrl, m);
  }

  /** The second part of validateTournament: resolving the matches' teams
      and auditing that every team plays. */
  method ValidateMatchTeams(t: Tournament, m: MultiError)
    modifies t`matches, m.list
    ensures t.matches == Values(Enrichments(old(t.matches), t.teams))
    ensures m.list.errs == old(m.list.errs)
                           + ScopedAll(m.prefixes, NumberedProblems("match", Enrichments(old(t.matches), t.teams))
                                                   + AuditProblems(t.teams, MatchSides(old(t.matches)), false))
  {
    ghost var ms := t.matches;
    var audit := new TeamsAudit(t.teams);
    EnrichMatches(t, audit, m);
    ghost var afterMatches := m.list.errs;
    audit.Validate(m, false);
    assert audit.counts == AckAll(ZeroCounts(audit.ids), MatchSides(ms));
    ScopedAllExtend(old(m.list.errs), m.prefixes, NumberedProblems("match", Enrichments(ms, t.teams)), Report(audit.ids, audit.counts, false));
  }

  /** The validation step of LoadTournament: a tournament with any problem
      is refused with all of them. */
  method CheckTournament(t: Tournament) returns (r: Result<Tournament, Failure>)
    modifies t`id, t`name, t`imageUrl, t`matches
    ensures t.id == Trim(old(t.id), ' ') && t.name == Trim(old(t.name), ' ') && t.imageUrl == Trim(old(t.imageUrl), ' ')
    ensures t.matches == Values(Enrichments(old(t.matches), t.teams))
    ensures var problems := TournamentProblems(old(t.id), old(t.name), old(t.imageUrl), t.teams, old(t.matches));
            (r.Success? <==> problems == [])
            && (r.Success? ==> r.value == t)
            && (r.Failure? ==> r.error == Aggregate(problems))
  {
    ghost var problems := TournamentProblems(t.id, t.name, t.imageUrl, t.teams, t.matches);
    var m := new MultiError();
    ValidateTournament(t, m);
    assert m.list.errs == ScopedAll([], problems);
    ScopedAllRoot(problems);
    assert m.list.errs == problems;
    if !m.IsEmpty() {
      return Failure(Aggregate(m.list.errs));
    }
    return Success(t);
  }

  // ---------------------------------------------------------------------
  // The tournament collection.

  /** TournamentCollection.GetByID: the earliest tournament with id `id`,
      skipping missing entries. */
  function GetByID(ts: seq<Tournament?>, id: string): (r: Tournament?)
    reads ts
    ensures r != null ==> r.id == id
    ensures r == null <==> forall i :: 0 <= i < |ts| ==> ts[i] == null || ts[i].id != id
    decreases |ts|
  {
    if ts == [] then null
    else if ts[0] != null && ts[0].id == id then ts[0]
    else GetByID(ts[1..], id)
  }

  /** The lookup returns the first entry carrying the id. */
  lemma {:induction false} GetByIDFirst(ts: seq<Tournament?>, id: string, k: nat)
    requires k < |ts| && ts[k] != null && ts[k].id == id
    requires forall j :: 0 <= j < k ==> ts[j] == null || ts[j].id != id
    ensures GetByID(ts, id) == ts[k]
    decreases k
  {
    if k > 0 {
      GetByIDFirst(ts[1..], id, k - 1);
    }
  }

  /** The ids of `ts`, in order. */
  function Ids(ts: seq<Tournament>): (r: seq<string>)
    reads ts
    ensures |r| == |ts|
    ensures forall i :: 0 <= i < |ts| ==> r[i] == ts[i].id
  {
    seq(|ts|, i requires 0 <= i < |ts| reads ts => ts[i].id)
  }

  function DuplicateMessage(id: string): string {
    Wrap("id '" + id + "'", ErrIsDuplicate)
  }

  /** One duplicate report for every id that an earlier entry already had. */
  function DuplicateIds(ids: seq<string>): (r: seq<string>)
    ensures |r| < |ids| || ids == []
    decreases |ids|
  {
    if ids == [] then []
    else
      var init, last := ids[..|ids| - 1], ids[|ids| - 1];
      DuplicateIds(init) + (if last in init then [DuplicateMessage(last)] else [])
  }

  lemma DuplicateIdsStep(ids: seq<string>, i: nat)
    requires i < |ids|
    ensures DuplicateIds(ids[..i + 1])
            == DuplicateIds(ids[..i]) + (if ids[i] in ids[..i] then [DuplicateMessage(ids[i])] else [])
  {
    assert ids[..i + 1][..i] == ids[..i];
  }

  /** There is no duplicate report exactly when the ids are distinct. */
  lemma {:induction false} DuplicateIdsEmpty(ids: seq<string>)
    ensures DuplicateIds(ids) == [] <==> Distinct(ids)
    decreases |ids|
  {
    if ids != [] {
      var init, last := ids[..|ids| - 1], ids[|ids| - 1];
      DuplicateIdsEmpty(init);
      DistinctSnoc(init, last);
      assert ids == init + [last];
    }
  }

  /** Every occurrence after the first is reported once: the reports and
      the distinct ids add up to all the ids. */
  lemma {:induction false} DuplicateIdsCount(ids: seq<string>)
    ensures |DuplicateIds(ids)| + |Dedup(ids)| == |ids|
    decreases |ids|
  {
    if ids != [] {
      var init, last := ids[..|ids| - 1], ids[|ids| - 1];
      DuplicateIdsCount(init);
      assert last in Dedup(init) <==> last in Elems(init);
    }
  }

  lemma SeenStep(ids: seq<string>, i: nat)
    requires i < |ids|
    ensures Elems(ids[..i + 1]) == Elems(ids[..i]) + {ids[i]}
    ensures ids[i] in Elems(ids[..i]) <==> ids[i] in ids[..i]
  {
    assert ids[..i + 1] == ids[..i] + [ids[i]];
  }

  /** Reports `id` at the root when it was already seen. */
  method AddDuplicate(id: string, seen: set<string>, m: MultiError)
    requires m.prefixes == []
    modifies m.list
    ensures m.list.errs == old(m.list.errs) + (if id in seen then [DuplicateMessage(id)] else [])
  {
    if id in seen {
      m.Add(Some(DuplicateMessage(id)));
    }
  }

  /** validateTournaments: reports every tournament whose id an earlier one
      already had, and otherwise returns the collection unchanged. */
  method ValidateTournaments(ts: seq<Tournament>) returns (r: Result<seq<Tournament>, Failure>)
    ensures r.Success? <==> DuplicateIds(Ids(ts)) == []
    ensures r.Success? ==> r.value == ts
    ensures r.Failure? ==> r.error == Aggregate(DuplicateIds(Ids(ts)))
  {
    ghost var all := Ids(ts);
    var seen: set<string> := {};
    var m := new MultiError();
    var idx := 0;
    assert all[..0] == [];
    while idx < |ts|
      invariant 0 <= idx <= |ts|
      invariant m.prefixes == []
      invariant seen == Elems(all[..idx])
      invariant m.list.errs == DuplicateIds(all[..idx])
    {
      var id := ts[idx].id;
      assert all[idx] == id;
      DuplicateIdsStep(all, idx);
      SeenStep(all, idx);
      AddDuplicate(id, seen, m);
      seen := seen + {id};
      idx := idx + 1;
    }
    assert all[..idx] == all;
    if !m.IsEmpty() {
      return Failure(Aggregate(m.list.errs));
    }
    return Success(ts);
  }

  /** The index of the first loader that failed, if any. */
  function FirstFailure(loaded: seq<Result<Tournament, Failure>>): (k: Option<nat>)
    ensures k.Some? ==> k.value < |loaded| && loaded[k.value].Failure?
    ensures k.Some? ==> forall j :: 0 <= j < k.value ==> loaded[j].Success?
    ensures k.None? ==> forall j :: 0 <= j < |loaded| ==> loaded[j].Success?
    decreases |loaded|
  {
    if loaded == [] then None
    else if loaded[0].Failure? then Some(0)
    else match FirstFailure(loaded[1..])
      case None => None
      case Some(k) => Some(k + 1)
  }

  /** The tournaments of loaders that all succeeded. */
  function Loaded(loaded: seq<Result<Tournament, Failure>>): (r: seq<Tournament>)
    requires forall j :: 0 <= j < |loaded| ==> loaded[j].Success?
    ensures |r| == |loaded|
    ensures forall j :: 0 <= j < |loaded| ==> r[j] == loaded[j].value
  {
    seq(|loaded|, j requires 0 <= j < |loaded| && loaded[j].Success? => loaded[j].value)
  }

  /** NewTournamentCollection, with `loaded` the outcomes of the loaders: the
      first failure stops the collection under "loader index <i>"; otherwise
      the loaded tournaments are checked for duplicate ids. */
  method NewTournamentCollection(loaded: seq<Result<Tournament, Failure>>) returns (r: Result<seq<Tournament>, Failure>)
    ensures FirstFailure(loaded).Some? ==>
              var k := FirstFailure(loaded).value;
              r == Failure(Wrapped("loader index " + IntToString(k), loaded[k].error))
    ensures FirstFailure(loaded).None? ==>
              var ts := Loaded(loaded);
              (r.Success? <==> DuplicateIds(Ids(ts)) == [])
              && (r.Success? ==> r.value == ts)
              && (r.Failure? ==> r.error == Aggregate(DuplicateIds(Ids(ts))))
  {
    var tournaments: seq<Tournament> := [];
    var idx := 0;
    while idx < |loaded|
      invariant 0 <= idx <= |loaded|
      invariant forall j :: 0 <= j < idx ==> loaded[j].Success?
      invariant |tournaments| == idx
      invariant forall j :: 0 <= j < idx ==> tournaments[j] == loaded[j].value
    {
      if loaded[idx].Failure? {
        FirstFailureAt(loaded, idx);
        return Failure(Wrapped("loader index " + IntToString(idx), loaded[idx].error));
      }
      tournaments := tournaments + [loaded[idx].value];
      idx := idx + 1;
    }
    assert tournaments == Loaded(loaded);
    r := ValidateTournaments(tournaments);
  }

  /** A failure preceded only by successes is the first failure. */
  lemma {:induction false} FirstFailureAt(loaded: seq<Result<Tournament, Failure>>, k: nat)
    requires k < |loaded| && loaded[k].Failure?
    requires forall j :: 0 <= j < k ==> loaded[j].Success?
    ensures FirstFailure(loaded) == Some(k)
    decreases k
  {
    if k > 0 {
      FirstFailureAt(loaded[1..], k - 1);
    }
  }

  // ---------------------------------------------------------------------
  // The sort_teams template helper.

  function TeamName(t: Team): string {
    t.name
  }

  /** sort_teams: a new collection holding the same teams ordered by name,
      teams with equal names in their original order. The input is a value
      and is left as it was. */
  function SortTeams(teams: seq<Team>): (r: seq<Team>)
    ensures multiset(r) == multiset(teams)
    ensures SortedBy(r, TeamName)
    ensures forall name :: WithKey(r, TeamName, name) == WithKey(teams, TeamName, name)
  {
    SortBy(teams, TeamName)
  }
}
