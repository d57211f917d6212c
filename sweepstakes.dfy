/** Sweepstakes: participants, prize settings, the validation of one
    sweepstake against its tournament's teams (every team backed by
    exactly one participant). */
module Sweepstakes {
  import opened Wrappers
  import opened Text
  import opened Errors
  import opened Teams
  import opened Matches
  import opened Tournaments

  /** A person in the sweepstake and the team they drew. */
  datatype Participant = Participant(teamId: string, name: string)

  /** ParticipantCollection.GetByTeamID: the earliest participant who drew
      team `id`. */
  function GetByTeamID(ps: seq<Participant>, id: string): (r: Option<Participant>)
    ensures r.Some? ==> r.value in ps && r.value.teamId == id
    ensures r.None? <==> forall i :: 0 <= i < |ps| ==> ps[i].teamId != id
    decreases |ps|
  {
    if ps == [] then None
    else if ps[0].teamId == id then Some(ps[0])
    else GetByTeamID(ps[1..], id)
  }

  /** The lookup returns the first participant with the team. */
  lemma {:induction false} GetByTeamIDFirst(ps: seq<Participant>, id: string, k: nat)
    requires k < |ps| && ps[k].teamId == id
    requires forall j :: 0 <= j < k ==> ps[j].teamId != id
    ensures GetByTeamID(ps, id) == Some(ps[k])
    decreases k
  {
    if k > 0 {
      GetByTeamIDFirst(ps[1..], id, k - 1);
    }
  }

  /** Which prizes the sweepstake awards. */
  datatype PrizeSettings = PrizeSettings(
    winner: bool,
    runnerUp: bool,
    mostGoalsConceded: bool,
    mostYellowCards: bool,
    quickestOwnGoal: bool,
    quickestRedCard: bool)

  class Sweepstake {
    var id: string
    var name: string
    var imageUrl: string
    var tournament: Tournament?
    var participants: seq<Participant>
    var prizes: PrizeSettings
    var build: bool

    constructor (id: string, name: string, imageUrl: string, participants: seq<Participant>, prizes: PrizeSettings, build: bool)
      ensures this.id == id && this.name == name && this.imageUrl == imageUrl
      ensures tournament == null && this.participants == participants
      ensures this.prizes == prizes && this.build == build
    {
      this.id := id;
      this.name := name;
      this.imageUrl := imageUrl;
      tournament := null;
      this.participants := participants;
      this.prizes := prizes;
      this.build := build;
    }
  }

  // ---------------------------------------------------------------------
  // Participants.

  function TrimParticipant(p: Participant): Participant {
    Participant(Trim(p.teamId, ' '), Trim(p.name, ' '))
  }

  /** The participants with their team ids and names trimmed. */
  function TrimParticipants(ps: seq<Participant>): (r: seq<Participant>)
    ensures |r| == |ps|
    decreases |ps|
  {
    if ps == [] then [] else TrimParticipants(ps[..|ps| - 1]) + [TrimParticipant(ps[|ps| - 1])]
  }

  lemma TrimParticipantsStep(ps: seq<Participant>, i: nat)
    requires i < |ps|
    ensures TrimParticipants(ps[..i + 1]) == TrimParticipants(ps[..i]) + [TrimParticipant(ps[i])]
  {
    assert ps[..i + 1][..i] == ps[..i];
  }

  /** Each participant keeps its position; trimming changes only its text. */
  lemma {:induction false} TrimParticipantsIndex(ps: seq<Participant>)
    ensures forall i :: 0 <= i < |ps| ==> TrimParticipants(ps)[i] == TrimParticipant(ps[i])
    decreases |ps|
  {
    if ps != [] {
      TrimParticipantsIndex(ps[..|ps| - 1]);
    }
  }

  /** Trimming the participants of a validated sweepstake again changes
      nothing. */
  lemma TrimParticipantsIdempotent(ps: seq<Participant>)
    ensures TrimParticipants(TrimParticipants(ps)) == TrimParticipants(ps)
  {
    var once := TrimParticipants(ps);
    TrimParticipantsIndex(ps);
    TrimParticipantsIndex(once);
    forall i | 0 <= i < |ps|
      ensures TrimParticipants(once)[i] == once[i]
    {
      TrimIdempotent(ps[i].teamId, ' ');
      TrimIdempotent(ps[i].name, ' ');
    }
  }

  function UnknownTeamMessage(id: string): string {
    "unrecognised participant team id: " + id
  }

  function ParticipantLabel(i: nat): string {
    "participant index " + IntToString(i)
  }

  /** The problem of one participant: its trimmed team id is not one of the
      tournament's teams. */
  function ParticipantCheck(p: Participant, teams: seq<Team>): Option<string> {
    var id := Trim(p.teamId, ' ');
    if id in TeamIds(teams) then None else Some(UnknownTeamMessage(id))
  }

  /** The participant problems, each under "participant index <i>",
      counting from zero. */
  function ParticipantProblems(ps: seq<Participant>, teams: seq<Team>): seq<string>
    decreases |ps|
  {
    if ps == [] then []
    else
      ParticipantProblems(ps[..|ps| - 1], teams)
        + ScopedAll([ParticipantLabel(|ps| - 1)], OptionToSeq(ParticipantCheck(ps[|ps| - 1], teams)))
  }

  lemma ParticipantProblemsStep(ps: seq<Participant>, teams: seq<Team>, i: nat)
    requires i < |ps|
    ensures ParticipantProblems(ps[..i + 1], teams)
            == ParticipantProblems(ps[..i], teams) + ScopedAll([ParticipantLabel(i)], OptionToSeq(ParticipantCheck(ps[i], teams)))
  {
    assert ps[..i + 1][..i] == ps[..i];
  }

  /** The last participant adds no problem exactly when it drew one of the
      tournament's teams. */
  lemma ParticipantProblemsLast(ps: seq<Participant>, teams: seq<Team>)
    requires ps != []
    ensures ParticipantProblems(ps, teams) == []
            <==> ParticipantProblems(ps[..|ps| - 1], teams) == [] && ParticipantCheck(ps[|ps| - 1], teams).None?
  {
    var tail := ScopedAll([ParticipantLabel(|ps| - 1)], OptionToSeq(ParticipantCheck(ps[|ps| - 1], teams)));
    assert |tail| == |OptionToSeq(ParticipantCheck(ps[|ps| - 1], teams))|;
  }

  /** Every team of `init + [last]` is known exactly when every team of
      `init` is and the team of `last` is. */
  lemma AllKnownSplit(ps: seq<Participant>, init: seq<Participant>, teams: seq<Team>)
    requires ps != [] && init == ps[..|ps| - 1]
    ensures (forall i :: 0 <= i < |ps| ==> ParticipantCheck(ps[i], teams).None?)
            <==> (forall i :: 0 <= i < |init| ==> ParticipantCheck(init[i], teams).None?)
                 && ParticipantCheck(ps[|ps| - 1], teams).None?
  {
    assert forall i :: 0 <= i < |init| ==> ps[i] == init[i];
  }

  /** There is no participant problem exactly when every participant drew
      one of the tournament's teams. */
  lemma {:induction false} ParticipantProblemsEmpty(ps: seq<Participant>, teams: seq<Team>)
    ensures ParticipantProblems(ps, teams) == []
            <==> forall i :: 0 <= i < |ps| ==> ParticipantCheck(ps[i], teams).None?
    decreases |ps|
  {
    if ps != [] {
      var init := ps[..|ps| - 1];
      ParticipantProblemsEmpty(init, teams);
      ParticipantProblemsLast(ps, teams);
      AllKnownSplit(ps, init, teams);
    }
  }

  /** The team a participant backs, as the audit meets it: only its id. */
  function Backing(p: Participant): Option<Team> {
    Some(Team(Trim(p.teamId, ' '), "", ""))
  }

  /** The teams the participants back, in order. */
  function ParticipantSides(ps: seq<Participant>): (r: seq<Option<Team>>)
    ensures |r| == |ps|
    decreases |ps|
  {
    if ps == [] then [] else ParticipantSides(ps[..|ps| - 1]) + [Backing(ps[|ps| - 1])]
  }

  lemma ParticipantSidesStep(ps: seq<Participant>, i: nat)
    requires i < |ps|
    ensures ParticipantSides(ps[..i + 1]) == ParticipantSides(ps[..i]) + [Backing(ps[i])]
  {
    assert ps[..i + 1][..i] == ps[..i];
  }

  /** How many participants drew team `id`, after trimming. */
  function Backers(ps: seq<Participant>, id: string): nat
    decreases |ps|
  {
    if ps == [] then 0
    else Backers(ps[..|ps| - 1], id) + (if Trim(ps[|ps| - 1].teamId, ' ') == id then 1 else 0)
  }

  /** The audit meets a team once for every participant who drew it. */
  lemma {:induction false} SidesBackers(ps: seq<Participant>, id: string)
    ensures Occurrences(ParticipantSides(ps), id) == Backers(ps, id)
    decreases |ps|
  {
    if ps != [] {
      SidesBackers(ps[..|ps| - 1], id);
    }
  }

  /** Every problem of validateSweepstake, in order: the required fields,
      the participants whose team is unknown, then every team of the
      tournament not drawn by exactly one participant. */
  function SweepstakeProblems(id: string, name: string, imageUrl: string, teams: seq<Team>, ps: seq<Participant>): seq<string> {
    RequiredFields(Trim(id, ' '), Trim(name, ' '), Trim(imageUrl, ' '))
      + (ParticipantProblems(ps, teams) + AuditProblems(teams, ParticipantSides(ps), true))
  }

  /** validateSweepstake accepts a sweepstake exactly when its trimmed id,
      name and image url are set, every participant's trimmed team id names
      a tournament team, and every tournament team was drawn by exactly one
      participant. */
  lemma SweepstakeProblemsEmpty(id: string, name: string, imageUrl: string, teams: seq<Team>, ps: seq<Participant>)
    ensures SweepstakeProblems(id, name, imageUrl, teams, ps) == []
            <==> Trim(id, ' ') != "" && Trim(name, ' ') != "" && Trim(imageUrl, ' ') != ""
                 && (forall i :: 0 <= i < |ps| ==> Trim(ps[i].teamId, ' ') in TeamIds(teams))
                 && (forall tid :: tid in TeamIds(teams) ==> Backers(ps, tid) == 1)
  {
    RequiredFieldsEmpty(Trim(id, ' '), Trim(name, ' '), Trim(imageUrl, ' '));
    ParticipantProblemsEmpty(ps, teams);
    AuditProblemsEmpty(teams, ParticipantSides(ps), true);
    forall tid | tid in TeamIds(teams)
      ensures Occurrences(ParticipantSides(ps), tid) == Backers(ps, tid)
    {
      SidesBackers(ps, tid);
    }
  }

  /** The audit of a sweepstake reports a team exactly when it is one of the
      tournament's teams and the number of participants who drew it is not
      one, and then with that number. */
  lemma SweepstakeAudit(teams: seq<Team>, ps: seq<Participant>, id: string, n: nat)
    ensures CountMessage(id, n) in AuditProblems(teams, ParticipantSides(ps), true)
            <==> id in TeamIds(teams) && n == Backers(ps, id) && n != 1
  {
    AuditReport(teams, ParticipantSides(ps), true, id, n);
    SidesBackers(ps, id);
  }

  // ---------------------------------------------------------------------
  // Validating one sweepstake.

  /** The first part of validateSweepstake: the trimmed required fields,
      reported at the level of `m`. */
  method ValidateSweepstakeFields(s: Sweepstake, m: MultiError)
    modifies s`id, s`name, s`imageUrl, m.list
    ensures s.id == Trim(old(s.id), ' ') && s.name == Trim(old(s.name), ' ') && s.imageUrl == Trim(old(s.imageUrl), ' ')
    ensures m.list.errs == old(m.list.errs) + ScopedAll(m.prefixes, RequiredFields(s.id, s.name, s.imageUrl))
  {
    s.id := Trim(s.id, ' ');
    s.name := Trim(s.name, ' ');
    s.imageUrl := Trim(s.imageUrl, ' ');
    AddRequired(s.id, s.name, s.imageUrl, m);
  }

  /** One round of the participant loop, on the participant at `idx`: trims
      it in place, lets the audit meet its team, and reports the team when
      the audit refuses it. */
  method CheckParticipant(s: Sweepstake, idx: nat, audit: TeamsAudit, m: MultiError,
                          ghost teams: seq<Team>, ghost ps: seq<Participant>, ghost base: seq<string>, ghost zero: map<string, nat>,
                          ghost acc: seq<string>)
    requires audit.Valid() && audit.ids == Dedup(TeamIds(teams)) && idx < |ps|
    requires s.participants == TrimParticipants(ps[..idx]) + ps[idx..]
    requires audit.counts == AckAll(zero, ParticipantSides(ps[..idx]))
    requires m.list.errs == base + ScopedAll(m.prefixes, acc)
    modifies s`participants, audit`counts, m.list
    ensures audit.Valid()
    ensures s.participants == TrimParticipants(ps[..idx + 1]) + ps[idx + 1..]
    ensures audit.counts == AckAll(zero, ParticipantSides(ps[..idx + 1]))
    ensures m.list.errs == base + ScopedAll(m.prefixes, acc + ScopedAll([ParticipantLabel(idx)], OptionToSeq(ParticipantCheck(ps[idx], teams))))
  {
    TrimmedNext(ps, idx);
    BackedNext(ps, zero, idx);
    NestStep(base, m.prefixes, acc, ParticipantLabel(idx), OptionToSeq(ParticipantCheck(ps[idx], teams)));
    var p := TrimParticipant(s.participants[idx]);
    s.participants := s.participants[idx := p];
    CheckOne(p, ps[idx], teams, audit, ParticipantLabel(idx), m);
  }

  /** What one round of the loop does to the participants. */
  lemma TrimmedNext(ps: seq<Participant>, idx: nat)
    requires idx < |ps|
    ensures var cur := TrimParticipants(ps[..idx]) + ps[idx..];
            cur[idx] == ps[idx]
            && cur[idx := TrimParticipant(ps[idx])] == TrimParticipants(ps[..idx + 1]) + ps[idx + 1..]
  {
    TrimParticipantsStep(ps, idx);
    ReplaceNext(TrimParticipants(ps[..idx]), ps[idx..], TrimParticipant(ps[idx]));
    assert ps[idx..][1..] == ps[idx + 1..];
  }

  /** What one round of the loop does to the audit's counters. */
  lemma BackedNext(ps: seq<Participant>, zero: map<string, nat>, idx: nat)
    requires idx < |ps|
    ensures AckAll(zero, ParticipantSides(ps[..idx + 1])) == Acked(AckAll(zero, ParticipantSides(ps[..idx])), Backing(ps[idx]))
  {
    ParticipantSidesStep(ps, idx);
    AckAllStep(zero, ParticipantSides(ps[..idx + 1]), idx);
    assert ParticipantSides(ps[..idx + 1])[..idx] == ParticipantSides(ps[..idx]);
  }

  /** The body of the participant loop on the participant `raw`, already
      trimmed to `p`: lets the audit meet its team and adds the refusal
      under `q`. */
  method CheckOne(p: Participant, ghost raw: Participant, ghost teams: seq<Team>, audit: TeamsAudit, q: string, m: MultiError)
    requires audit.Valid() && audit.ids == Dedup(TeamIds(teams)) && p == TrimParticipant(raw)
    modifies audit`counts, m.list
    ensures audit.Valid()
    ensures audit.counts == Acked(old(audit.counts), Backing(raw))
    ensures m.list.errs == old(m.list.errs) + ScopedAll(m.prefixes + [q], OptionToSeq(ParticipantCheck(raw, teams)))
  {
    var view := m.WithPrefix(q);
    var ok := audit.Ack(Some(Team(p.teamId, "", "")));
    KnownTeam(audit.ids, teams, p.teamId);
    var check := if ok then None else Some(UnknownTeamMessage(p.teamId));
    view.Add(check);
  }

  /** An audit seeded with `teams` has a counter for exactly their ids. */
  lemma KnownTeam(ids: seq<string>, teams: seq<Team>, id: string)
    requires ids == Dedup(TeamIds(teams))
    ensures id in Elems(ids) <==> id in TeamIds(teams)
  {
  }

  /** The participant loop of validateSweepstake: every participant trimmed
      in place, its team met by the audit and refused when unknown, each
      under its own "participant index" view of `m`. */
  method CheckParticipants(s: Sweepstake, audit: TeamsAudit, m: MultiError, ghost teams: seq<Team>)
    requires audit.Valid() && audit.ids == Dedup(TeamIds(teams))
    modifies s`participants, audit`counts, m.list
    ensures audit.Valid()
    ensures s.participants == TrimParticipants(old(s.participants))
    ensures audit.counts == AckAll(old(audit.counts), ParticipantSides(old(s.participants)))
    ensures m.list.errs == old(m.list.errs) + ScopedAll(m.prefixes, ParticipantProblems(old(s.participants), teams))
  {
    ghost var ps := s.participants;
    ghost var base := m.list.errs;
    ghost var zero := audit.counts;
    var n := |s.participants|;
    var idx := 0;
    assert ps[0..] == ps;
    while idx < n
      invariant n == |ps|
      invariant 0 <= idx <= |ps|
      invariant audit.Valid() && audit.ids == Dedup(TeamIds(teams))
      invariant s.participants == TrimParticipants(ps[..idx]) + ps[idx..]
      invariant audit.counts == AckAll(zero, ParticipantSides(ps[..idx]))
      invariant m.list.errs == base + ScopedAll(m.prefixes, ParticipantProblems(ps[..idx], teams))
    {
      CheckParticipant(s, idx, audit, m, teams, ps, base, zero, ParticipantProblems(ps[..idx], teams));
      ParticipantProblemsStep(ps, teams, idx);
      idx := idx + 1;
    }
    assert ps[..idx] == ps;
  }

  /** The second part of validateSweepstake: the participant loop, then the
      audit in exactly-once mode. */
  method ValidateParticipants(s: Sweepstake, m: MultiError)
    requires s.tournament != null
    modifies s`participants, m.list
    ensures s.participants == TrimParticipants(old(s.participants))
    ensures m.list.errs == old(m.list.errs)
                           + ScopedAll(m.prefixes, ParticipantProblems(old(s.participants), s.tournament.teams)
                                                   + AuditProblems(s.tournament.teams, ParticipantSides(old(s.participants)), true))
  {
    ghost var ps := s.participants;
    var audit := new TeamsAudit(s.tournament.teams);
    CheckParticipants(s, audit, m, s.tournament.teams);
    ghost var checked := m.list.errs;
    audit.Validate(m, true);
    assert audit.counts == AckAll(ZeroCounts(audit.ids), ParticipantSides(ps));
    ScopedAllExtend(old(m.list.errs), m.prefixes, ParticipantProblems(ps, s.tournament.teams), Report(audit.ids, audit.counts, true));
  }

  /** validateSweepstake: trims the id, name, image url and every
      participant in place, reports the empty fields and the unknown teams,
      and audits that every team of the tournament is drawn exactly once.
      Its problems go to `m` itself, not to a view. */
  method ValidateSweepstake(s: Sweepstake, m: MultiError)
    requires s.tournament != null
    modifies s`id, s`name, s`imageUrl, s`participants, m.list
    ensures s.id == Trim(old(s.id), ' ') && s.name == Trim(old(s.name), ' ') && s.imageUrl == Trim(old(s.imageUrl), ' ')
    ensures s.participants == TrimParticipants(old(s.participants))
    ensures m.list.errs == old(m.list.errs)
                           + ScopedAll(m.prefixes, SweepstakeProblems(old(s.id), old(s.name), old(s.imageUrl),
                                                                      s.tournament.teams, old(s.participants)))
  {
    ValidateSweepstakeFields(s, m);
    ValidateParticipants(s, m);
    ScopedAllExtend(old(m.list.errs), m.prefixes,
                    RequiredFields(Trim(old(s.id), ' '), Trim(old(s.name), ' '), Trim(old(s.imageUrl), ' ')),
                    ParticipantProblems(old(s.participants), s.tournament.teams)
                      + AuditProblems(s.tournament.teams, ParticipantSides(old(s.participants)), true));
  }
}
