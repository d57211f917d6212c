/** Prizes: the outright prizes of a sweepstake. The winner and runner-up
    are read off the tournament's final, the match with id "F", and each
    prize names the team together with the participant who drew it. */
module Prizes {
  import opened Wrappers
  import opened Teams
  import opened Matches
  import opened Tournaments
  import opened Sweepstakes

  /** The id of the match taken to be the final. */
  const FinalMatchID: string := "F"

  /** A prize with a single outright winner. */
  datatype OutrightPrize = OutrightPrize(winnerName: string, imageUrl: string)

  /** The prize shown while there is no outright winner yet. */
  const DefaultOutright: OutrightPrize := OutrightPrize("TBC", "")

  /** getSummary: the team's name, preceded by the participant's name when
      there is a participant with a name. */
  function Summary(team: Team, participant: Option<Participant>): (r: string)
    ensures |r| >= |team.name|
    ensures participant.Some? && participant.value.name != "" ==> |r| == |participant.value.name| + |team.name| + 3
  {
    if participant.None? || participant.value.name == "" then team.name
    else participant.value.name + " (" + team.name + ")"
  }

  /** The summary is the bare team name exactly when no named participant
      drew the team, and otherwise it is the participant's name followed by
      the team's name in brackets. */
  lemma SummaryShape(team: Team, participant: Option<Participant>)
    ensures Summary(team, participant) == team.name <==> participant.None? || participant.value.name == ""
    ensures participant.Some? && participant.value.name != "" ==>
              var r := Summary(team, participant);
              var n := |participant.value.name|;
              r[..n] == participant.value.name && r[n..n + 2] == " (" && r[n + 2..|r| - 1] == team.name && r[|r| - 1] == ')'
  {
  }

  /** The prize for `team`: its summary with the first participant who drew
      it, and the team's image. */
  function PrizeFor(team: Team, ps: seq<Participant>): (r: OutrightPrize)
    ensures r.imageUrl == team.imageUrl
  {
    OutrightPrize(Summary(team, GetByTeamID(ps, team.id)), team.imageUrl)
  }

  /** TournamentWinner on the matches and participants of a sweepstake. */
  function WinnerPrize(matches: seq<Match>, ps: seq<Participant>): (r: OutrightPrize)
    ensures GetWinnerByMatchID(matches, FinalMatchID).None? ==> r == DefaultOutright
  {
    match GetWinnerByMatchID(matches, FinalMatchID)
    case None => DefaultOutright
    case Some(team) => PrizeFor(team, ps)
  }

  /** TournamentRunnerUp on the matches and participants of a sweepstake. */
  function RunnerUpPrize(matches: seq<Match>, ps: seq<Participant>): (r: OutrightPrize)
    ensures GetRunnerUpByMatchID(matches, FinalMatchID).None? ==> r == DefaultOutright
  {
    match GetRunnerUpByMatchID(matches, FinalMatchID)
    case None => DefaultOutright
    case Some(team) => PrizeFor(team, ps)
  }

  /** The winner comes from the first match with the final's id when it is
      completed with a winner, credited to the first participant who drew
      the winning team, with the team's image. In every other case the
      prize is the default. */
  lemma WinnerOfFinal(matches: seq<Match>, ps: seq<Participant>, k: nat)
    requires k < |matches| && matches[k].id == FinalMatchID
    requires forall j :: 0 <= j < k ==> matches[j].id != FinalMatchID
    ensures matches[k].completed && matches[k].winner.Some? ==>
              var w := matches[k].winner.value;
              WinnerPrize(matches, ps) == OutrightPrize(Summary(w, GetByTeamID(ps, w.id)), w.imageUrl)
    ensures !matches[k].completed || matches[k].winner.None? ==> WinnerPrize(matches, ps) == DefaultOutright
  {
    WinnerOfFirst(matches, FinalMatchID, k);
  }

  /** Without a match carrying the final's id there is no winner. */
  lemma WinnerWithoutFinal(matches: seq<Match>, ps: seq<Participant>)
    requires forall j :: 0 <= j < |matches| ==> matches[j].id != FinalMatchID
    ensures WinnerPrize(matches, ps) == DefaultOutright
  {
    WinnerOfMissing(matches, FinalMatchID);
  }

  /** In a completed final between two different teams whose winner is one
      of them, the runner-up prize goes to the other team; a final without
      a winner leaves the default. */
  lemma RunnerUpOfFinal(matches: seq<Match>, ps: seq<Participant>, k: nat)
    requires k < |matches| && matches[k].id == FinalMatchID
    requires forall j :: 0 <= j < k ==> matches[j].id != FinalMatchID
    requires matches[k].home.team.Some? && matches[k].away.team.Some?
    requires matches[k].home.team.value.id != matches[k].away.team.value.id
    ensures matches[k].completed && matches[k].winner.Some?
            && matches[k].winner.value.id == matches[k].home.team.value.id
            ==> RunnerUpPrize(matches, ps) == PrizeFor(matches[k].away.team.value, ps)
    ensures matches[k].completed && matches[k].winner.Some?
            && matches[k].winner.value.id == matches[k].away.team.value.id
            ==> RunnerUpPrize(matches, ps) == PrizeFor(matches[k].home.team.value, ps)
    ensures !matches[k].completed || matches[k].winner.None? ==> RunnerUpPrize(matches, ps) == DefaultOutright
  {
    if matches[k].completed && matches[k].winner.Some? {
      RunnerUpIsLoser(matches, FinalMatchID, k);
    } else {
      WinnerOfFirst(matches, FinalMatchID, k);
      NoRunnerUpWithoutWinner(matches, FinalMatchID);
    }
  }

  /** The prize is credited to the first participant registered with the
      prize team. */
  lemma PrizeForFirstParticipant(team: Team, ps: seq<Participant>, k: nat)
    requires k < |ps| && ps[k].teamId == team.id
    requires forall j :: 0 <= j < k ==> ps[j].teamId != team.id
    ensures PrizeFor(team, ps).winnerName == Summary(team, Some(ps[k]))
  {
    GetByTeamIDFirst(ps, team.id, k);
  }

  /** The frame of a read of a sweepstake and its tournament. */
  function Footprint(s: Sweepstake?): set<object>
    reads s
  {
    if s == null || s.tournament == null then {} else {s, s.tournament}
  }

  /** TournamentWinner: the default for a missing sweepstake, otherwise the
      winner of its tournament's final. */
  function TournamentWinner(s: Sweepstake?): (r: OutrightPrize)
    requires s != null ==> s.tournament != null
    reads s, Footprint(s)
    ensures s == null ==> r == DefaultOutright
    ensures s != null ==> r == WinnerPrize(s.tournament.matches, s.participants)
  {
    if s == null then DefaultOutright else WinnerPrize(s.tournament.matches, s.participants)
  }

  /** TournamentRunnerUp: the default for a missing sweepstake, otherwise
      the runner-up of its tournament's final. */
  function TournamentRunnerUp(s: Sweepstake?): (r: OutrightPrize)
    requires s != null ==> s.tournament != null
    reads s, Footprint(s)
    ensures s == null ==> r == DefaultOutright
    ensures s != null ==> r == RunnerUpPrize(s.tournament.matches, s.participants)
  {
    if s == null then DefaultOutright else RunnerUpPrize(s.tournament.matches, s.participants)
  }
}
