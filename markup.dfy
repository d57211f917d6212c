/** Markup: the data GenerateMarkup hands to a sweepstake's template. Each
    prize is computed only when the sweepstake awards it, and the title and
    image fall back to the tournament's when the sweepstake has none. */
module Markup {
  import opened Wrappers
  import opened Matches
  import opened Tournaments
  import opened Sweepstakes
  import opened Prizes

  /** One place in a ranked prize. */
  datatype Rank = Rank(position: Uint8, imageUrl: string, name: string, value: Uint8)

  /** A prize awarded by ranking. */
  datatype RankedPrize = RankedPrize(result: seq<Rank>)

  /** What the four ranked-prize generators give for a sweepstake. */
  datatype RankedResults = RankedResults(
    mostGoalsConceded: RankedPrize,
    mostYellowCards: RankedPrize,
    quickestOwnGoal: RankedPrize,
    quickestRedCard: RankedPrize)

  /** The prizes shown; a prize the sweepstake does not award is absent. */
  datatype PrizeData = PrizeData(
    winner: Option<OutrightPrize>,
    runnerUp: Option<OutrightPrize>,
    mostGoalsConceded: Option<RankedPrize>,
    mostYellowCards: Option<RankedPrize>,
    quickestOwnGoal: Option<RankedPrize>,
    quickestRedCard: Option<RankedPrize>)

  datatype MarkupData = MarkupData(title: string, imageUrl: string, lastUpdated: string, prizes: PrizeData)

  /** A prize value, kept only when its flag is set. */
  function Gate<T>(flag: bool, value: T): (r: Option<T>)
    ensures r.Some? <==> flag
    ensures r.Some? ==> r.value == value
  {
    if flag then Some(value) else None
  }

  /** A sweepstake's own text, or the tournament's when the own is empty. */
  function Fallback(own: string, tournament: string): (r: string)
    ensures own != "" ==> r == own
    ensures own == "" ==> r == tournament
  {
    if own == "" then tournament else own
  }

  /** The prize data for the given flags: each prize is present exactly
      when its flag is set, and then it is the generator's value. */
  function PrizeDataOf(flags: PrizeSettings, winner: OutrightPrize, runnerUp: OutrightPrize, ranked: RankedResults): (r: PrizeData)
    ensures r.winner.Some? <==> flags.winner
    ensures r.runnerUp.Some? <==> flags.runnerUp
    ensures r.mostGoalsConceded.Some? <==> flags.mostGoalsConceded
    ensures r.mostYellowCards.Some? <==> flags.mostYellowCards
    ensures r.quickestOwnGoal.Some? <==> flags.quickestOwnGoal
    ensures r.quickestRedCard.Some? <==> flags.quickestRedCard
    ensures r.winner.Some? ==> r.winner.value == winner
    ensures r.runnerUp.Some? ==> r.runnerUp.value == runnerUp
    ensures r.mostGoalsConceded.Some? ==> r.mostGoalsConceded.value == ranked.mostGoalsConceded
    ensures r.mostYellowCards.Some? ==> r.mostYellowCards.value == ranked.mostYellowCards
    ensures r.quickestOwnGoal.Some? ==> r.quickestOwnGoal.value == ranked.quickestOwnGoal
    ensures r.quickestRedCard.Some? ==> r.quickestRedCard.value == ranked.quickestRedCard
  {
    PrizeData(
      Gate(flags.winner, winner),
      Gate(flags.runnerUp, runnerUp),
      Gate(flags.mostGoalsConceded, ranked.mostGoalsConceded),
      Gate(flags.mostYellowCards, ranked.mostYellowCards),
      Gate(flags.quickestOwnGoal, ranked.quickestOwnGoal),
      Gate(flags.quickestRedCard, ranked.quickestRedCard))
  }

  /** The data of GenerateMarkup for sweepstake `s`. `now` is the formatted
      current time and `ranked` what the ranked-prize generators give;
      both are inputs here. */
  function MarkupDataOf(s: Sweepstake, now: string, ranked: RankedResults): (r: MarkupData)
    requires s.tournament != null
    reads s, s.tournament
    ensures r.title == (if s.name != "" then s.name else s.tournament.name)
    ensures r.imageUrl == (if s.imageUrl != "" then s.imageUrl else s.tournament.imageUrl)
    ensures r.lastUpdated == (if s.tournament.withLastUpdated then now else "")
    ensures r.prizes.winner.Some? ==> r.prizes.winner.value == TournamentWinner(s)
    ensures r.prizes.runnerUp.Some? ==> r.prizes.runnerUp.value == TournamentRunnerUp(s)
    ensures r.prizes.mostGoalsConceded.Some? ==> r.prizes.mostGoalsConceded.value == ranked.mostGoalsConceded
    ensures r.prizes.mostYellowCards.Some? ==> r.prizes.mostYellowCards.value == ranked.mostYellowCards
    ensures r.prizes.quickestOwnGoal.Some? ==> r.prizes.quickestOwnGoal.value == ranked.quickestOwnGoal
    ensures r.prizes.quickestRedCard.Some? ==> r.prizes.quickestRedCard.value == ranked.quickestRedCard
  {
    var prizes := PrizeDataOf(s.prizes, TournamentWinner(s), TournamentRunnerUp(s), ranked);
    MarkupData(
      Fallback(s.name, s.tournament.name),
      Fallback(s.imageUrl, s.tournament.imageUrl),
      if s.tournament.withLastUpdated then now else "",
      prizes)
  }

  /** The title and image are empty only when both the sweepstake's and the
      tournament's are; a prize that is not awarded is never shown, and one
      that is awarded is always shown. A corollary of the contracts of the
      fields' builders, gathered in one statement. */
  lemma MarkupGating(s: Sweepstake, now: string, ranked: RankedResults)
    requires s.tournament != null
    ensures MarkupDataOf(s, now, ranked).title == "" <==> s.name == "" && s.tournament.name == ""
    ensures MarkupDataOf(s, now, ranked).imageUrl == "" <==> s.imageUrl == "" && s.tournament.imageUrl == ""
    ensures MarkupDataOf(s, now, ranked).prizes.winner.Some? <==> s.prizes.winner
    ensures MarkupDataOf(s, now, ranked).prizes.runnerUp.Some? <==> s.prizes.runnerUp
    ensures MarkupDataOf(s, now, ranked).prizes.mostGoalsConceded.Some? <==> s.prizes.mostGoalsConceded
    ensures MarkupDataOf(s, now, ranked).prizes.mostYellowCards.Some? <==> s.prizes.mostYellowCards
    ensures MarkupDataOf(s, now, ranked).prizes.quickestOwnGoal.Some? <==> s.prizes.quickestOwnGoal
    ensures MarkupDataOf(s, now, ranked).prizes.quickestRedCard.Some? <==> s.prizes.quickestRedCard
  {
  }
}
