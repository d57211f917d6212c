# sweepstake-markup-generator domain core, in Dafny

This project models the domain layer of the sweepstake markup generator. The
layer takes tournament data that has already been read and tokenised, and
turns it into validated, cross-linked entities:

- the matches of a tournament, transformed from the rows of a matches CSV
  file (including the own-goal and red-card mini-grammar
  `N;name:minute[+offset];…`) and then validated;
- tournaments. Each one's id-only match teams are resolved against its team
  list, and each one is checked for required fields and for teams that never
  play. A collection of tournaments is checked for duplicate ids;
- sweepstakes. Each one is linked to its tournament by id and has its own
  fields checked. Its participants are checked against the tournament's
  teams, with every team drawn exactly once. A collection of sweepstakes is
  checked for duplicate ids;
- the outright prizes of a sweepstake: the winner and runner-up of the
  tournament's final (the match with id `"F"`), each credited to the
  participant who drew the team;
- the data handed to a sweepstake's page template.

Errors are collected by an aggregator. It keeps messages in order, lets
prefixing views write through to the same list, and renders as a counted
bullet list. Errors are modelled as their message text. Go's `%w` wrapping is
the text `"<outer>: <inner>"`.

## Structure

| file | module | models |
|---|---|---|
| wrappers.dfy | Wrappers | Option/Result, the first-match search behind the lookups, and small sequence facts |
| text.dfy | Text | `strings.Trim` with one cut character, `strings.Split`, `SplitN(…, 2)`, `Join`, `strconv.Atoi`, decimal formatting |
| sorting.dfy | Sorting | the character-wise string order (byte-wise on ASCII) and a stable sort by a string key |
| errors.dfy | Errors | `multiErr` and `multiErrWithPrefix` as classes `ErrorList` and `MultiError`; the rendering; batches reported under numbered views ("row <k>", "match <k>") |
| teams.dfy | Teams | `Team`, `TeamCollection.GetByID`, the team audit as class `TeamsAudit` |
| matches.dfy | Matches | `Match` and its parts, the lookups, `validateMatch`, `validateMatches` |
| match_csv.dfy | MatchCsv | `transformCSVToMatches` and its field parsers, `LoadMatches` after the file is read |
| tournaments.dfy | Tournaments | class `Tournament`, loader settings, `validateTournament`, `populateTeamByID`, the collection and `sort_teams` |
| sweepstakes.dfy | Sweepstakes | `Participant`, `PrizeSettings`, class `Sweepstake`, `validateSweepstake` |
| sweepstake_collection.dfy | SweepstakeCollection | `validateSweepstakes` |
| sweepstake_loader.dfy | SweepstakeLoader | `SweepstakesJSONLoader.init` and `LoadSweepstakes` after decoding |
| prizes.dfy | Prizes | `TournamentWinner`, `TournamentRunnerUp`, `getSummary` |
| markup.dfy | Markup | the prize gating and fallbacks of `GenerateMarkup` |

Entities whose fields the source updates in place are classes:
`ErrorList`, `MultiError`, `TeamsAudit`, `Tournament` and `Sweepstake`.
Each validation method states the object's new fields in terms of the old
ones. It also states the new error list as the old list plus the messages
given by a specification function (`MatchesProblems`, `TournamentProblems`,
`SweepstakesProblems`, …). Lemmas then characterise those functions: when the
list stays empty, what is reported for a team, and so on. Matches, teams and
participants are values: updating one in place is modelled as replacing it
in the sequence that owns it.

External inputs become parameters:

- the calendar check of `time.Parse` is a function `parse`;
- the file system and CSV reader are a function `files`;
- the outcomes of the tournament loaders are a sequence of results;
- the current time and the ranked-prize values are arguments.

## Model

| member | source | states |
|---|---|---|
| Errors.ErrorList.constructor | domain/errors.go:20-26 | a new aggregator holds no errors |
| Errors.MultiError.constructor | domain/errors.go:20-22 | `NewMultiError` is a root handle, without prefixes, over a fresh empty list |
| Errors.MultiError.View | domain/errors.go:58-63 | a prefixing view shares the given list and carries the given prefixes |
| Errors.MultiError.IsEmpty | domain/errors.go:54-56 | true exactly when no error has been stored in the shared list |
| Errors.MultiError.Add | domain/errors.go:48-52 | a nil error leaves the list unchanged; a non-nil one is appended at the end, after every earlier error, in the form its enclosing views give it |
| Errors.MultiError.AddAll | domain/errors.go:48-52 | adding messages one after another appends their scoped forms in order |
| Errors.MultiError.WithPrefix | domain/errors.go:58-63 | the view writes to the same list as its parent and adds one prefix; the view holds no errors of its own |
| Errors.MultiError.Error | domain/errors.go:28-46 | the loop that builds the text produces exactly `Render` of the stored list |
| Errors.ScopedOuterFirst | domain/errors.go:70-76 | the outermost view's prefix ends up first in the stored message |
| Errors.ScopedNest | domain/errors.go:70-76 | a view one level deeper prefixes the message before handing it to its parent |
| Errors.ScopedAll | domain/errors.go:70-76 | adding several messages through one view stores each of them, in order, in the form that view gives it |
| Errors.ScopedJoin | domain/match.go:161 | with non-empty prefixes, nested views join their prefixes and the message with ": ", outermost first (e.g. "row 3: home own goals: event 1: invalid format") |
| Errors.ScopedEmptyPrefix | domain/errors.go:70-75 | a view with an empty prefix stores exactly what its parent would |
| Errors.ScopedAllNest | domain/errors.go:70-76 | adding through a view labelled `q` equals adding the `q`-prefixed messages through its parent |
| Errors.ScopedAllRoot | domain/errors.go:48-52 | the root stores messages unchanged |
| Errors.RenderShape | domain/errors.go:28-46 | an empty list renders as "0 errors"; otherwise, for messages that do not end in a line break, the text is the "1 error:" or "<n> errors:" header followed by one "- <msg>" line for each non-empty message, with no leading or trailing newline |
| Errors.RenderHeader | domain/errors.go:30-43 | the header counts every stored error, including those with empty messages that are not listed, whatever the messages are |
| Errors.Listed | domain/errors.go:39-43 | only non-empty messages get a bullet line |
| Errors.Render | domain/errors.go:28-46 | specification of `Error()`: "0 errors" for an empty list, otherwise the count header and the bullet lines, trimmed of line breaks; its properties are `RenderShape` and `RenderHeader` |
| Errors.ValuesIndex | domain/match.go:154-165 | a loop that handles every element through a numbered view keeps each element's value at its own position (rows in `transformCSVToMatches`, matches in `validateTournament`) |
| Errors.NumberedProblemsEmpty | domain/match.go:166-170 | a numbered batch adds no problem exactly when no element has one |
| Text.Trim | domain/match.go:230 | `strings.Trim` with one cut character: the result neither starts nor ends with it |
| Text.TrimLeft | domain/match.go:259 | `strings.TrimLeft` with one cut character: the result is no longer than the input and does not start with it |
| Text.TrimRight | domain/match.go:259 | `strings.TrimRight` with one cut character: the result is no longer than the input and does not end with it |
| Text.TrimIdempotent | domain/match.go:381 | trimming twice is trimming once |
| Text.TrimLeftSuffix | domain/match.go:259 | left trimming removes only a prefix made entirely of the cut character |
| Text.TrimRightPrefix | domain/match.go:259 | right trimming removes only a suffix made entirely of the cut character |
| Text.Split | domain/match.go:264 | `strings.Split`: at least one piece, and no piece holds the separator |
| Text.JoinSplit | domain/match.go:264 | joining the pieces of a split with the separator gives back the text |
| Text.SplitJoin | domain/match.go:264 | splitting pieces that lack the separator, after joining them, gives back the pieces |
| Text.SplitOnce | domain/match.go:306 | `strings.SplitN(s, sep, 2)`: one piece exactly when the separator is absent, otherwise the text before and after its first occurrence |
| Text.AtoiIntToString | domain/match.go:249 | `strconv.Atoi` reads every decimal rendering of an integer back as that integer |
| Text.IntToString | domain/errors.go:36 | `%d` formatting is never empty, and a non-negative value is written with digits only |
| Text.IntToStringInjective | domain/match.go:161 | different numbers render differently, so labels such as "row <k>" tell positions apart |
| Text.Atoi | domain/match.go:249 | specification of `strconv.Atoi` without range errors: an optional sign followed by one or more ASCII digits; `AtoiIntToString` states that it reads back every decimal rendering |
| Sorting.LessTotal | domain/tournament.go:141-143 | Go's string order `<` relates any two different strings one way or the other |
| Sorting.NotLessTransitive | domain/tournament.go:141-143 | "not below" is transitive, as the stable sort needs |
| Sorting.SortBy | domain/tournament.go:141-145 | the result is ordered by key, is a permutation of the input, and keeps elements with equal keys in their input order |
| Sorting.SortStrings | domain/tournament.go:205 | the audit's messages are sorted ascending and are a permutation of the input |
| Wrappers.FirstIndex | domain/match.go:70-78 | the position of the first element that satisfies a test, every earlier element failing it; none exactly when no element satisfies it (the search behind every `GetByID`) |
| Teams.GetByID | domain/team_test.go:29-82 | the team found carries the id; nothing is found exactly when no team has the id; otherwise it is the first team with the id |
| Teams.Dedup | domain/tournament.go:183 | the audit's ids are the team ids, each exactly once |
| Teams.TeamsAudit.constructor | domain/tournament.go:183 | the audit starts with a zero counter for each distinct team id |
| Teams.TeamsAudit.Ack | domain/sweepstake.go:312 | `ack` succeeds exactly when the team is present and audited, and then adds one to its counter; otherwise nothing changes |
| Teams.TeamsAudit.Flag | domain/tournament.go:205 | the loop collects exactly the messages `Flagged` specifies |
| Teams.TeamsAudit.Validate | domain/sweepstake.go:317 | `validate` appends the reported messages in ascending order |
| Teams.AckAll | domain/tournament.go:201-202 | specification of meeting a sequence of teams: the audited id set never changes; counts characterised by `AckAllCounts` |
| Teams.Flagged | domain/tournament.go:205 | specification of the `Flag` loop: at most one message per audited id; contents characterised by `FlaggedContains` |
| Teams.AuditProblems | domain/sweepstake.go:305-317 | specification of a whole audit (seed, meet every side, validate): characterised by `AuditReport` and `AuditProblemsEmpty` |
| Teams.AckAllCounts | domain/tournament.go:201-202 | after meeting a sequence of teams, every counter has risen by the number of times its team was met |
| Teams.CountMessageInjective | domain/tournament.go:205 | a count message names exactly one team and one count |
| Teams.FlaggedContains | domain/tournament.go:205 | the collected messages hold one for a team and a count exactly when the team is audited with that count and the mode reports it |
| Teams.ReportContains | domain/tournament.go:205 | the report holds a message for a team and a count exactly when the team is audited, has that count, and the mode reports it (count 0 in at-least-once mode, any count but 1 in exactly-once mode) |
| Teams.AuditReport | domain/sweepstake.go:305-317 | an audit seeded with a team list reports a team with count `n` exactly when the team is in the list, was met `n` times, and the mode reports `n` |
| Teams.Acked | domain/tournament.go:201-202 | specification of `ack`: the counter of a present, audited team goes up by one, and nothing else changes; the set of audited ids never changes |
| Teams.Report | domain/tournament.go:205 | specification of `validate`: the messages for reported teams, sorted; characterised by `ReportContains` and `AuditProblemsEmpty` |
| Teams.AuditProblemsEmpty | domain/sweepstake.go:305-317 | the audit reports nothing exactly when no team of the list was met a number of times the mode reports: at least once in at-least-once mode, exactly once in exactly-once mode |
| Matches.ToUint8 | domain/match.go:255 | Go's `uint8(v)`: the low eight bits, including for negative values; values in range are unchanged |
| Matches.GetByID | domain/match.go:70-78 | the match found carries the id; nothing is found exactly when no match has the id; otherwise it is the first match with the id |
| Matches.GetWinnerByMatchID | domain/match.go:80-88 | a winner is reported only for an existing, completed match, and it is that match's winner |
| Matches.WinnerOfFirst | domain/match.go:80-88 | the winner for an id is that of the first match carrying it, if that match is completed, and nothing otherwise |
| Matches.WinnerOfMissing | domain/match.go:81-85 | with no match carrying the id there is no winner |
| Matches.RunnerUp | domain/prizes.go:58-62 | the runner-up is the home or the away team, and in a match between different teams it is not the winner |
| Matches.GetRunnerUpByMatchID | domain/prizes.go:59 | a runner-up exists only when there is a winner, and it is one of the match's two teams |
| Matches.RunnerUpIsLoser | domain/prizes_test.go:170-432 | in a completed final between two different teams, a winner that is home makes away the runner-up and the other way round; a winner that is neither gives none |
| Matches.NoRunnerUpWithoutWinner | domain/prizes.go:59-62 | a final that is missing, not completed or without a winner has no runner-up |
| Matches.IsTeamNotOneOf | domain/match.go:420-432 | the scan reports true exactly when the needle is present and no present team of the haystack has its id |
| Matches.IsTeamIDIdentical | domain/match.go:412-418 | specification of `isTeamIDIdentical`: both teams present and with the same id; used by `MatchProblemsEmpty` |
| Matches.NotOneOf | domain/match.go:420-432 | specification of `isTeamNotOneOf`: the needle is present and no present team of the haystack has its id; `IsTeamNotOneOf` is proved equal to it |
| Matches.NotOneOfPair | domain/match.go:407 | against a home and an away team: the needle is present and differs in id from each present side |
| Matches.TrimTeam | domain/match.go:383-393 | a present team keeps everything but gets its id trimmed; an absent one stays absent |
| Matches.TrimMatch | domain/match.go:381-393 | the match id is trimmed, timestamp, stage, completion and every side's counts and events are kept, and each team reference keeps its presence; idempotence in `TrimMatchIdempotent` |
| Matches.TrimMatchIdempotent | domain/match.go:381-393 | trimming a validated match again changes nothing |
| Matches.MatchProblemsEmpty | domain/match.go:395-409 | `validateMatch` reports nothing exactly when the id is set, the timestamp is not zero, home and away differ when both are present, and a winner, if any, is one of the present sides |
| Matches.WinnerCheckFires | domain/match.go:407-409 | the winner complaint fires exactly when there is a winner that neither present side matches; never without a winner |
| Matches.MatchProblems | domain/match.go:395-409 | specification of the reports of `validateMatch`: empty id, zero timestamp, identical teams, winner not among the teams, in that order; characterised by `MatchProblemsEmpty` |
| Matches.ValidateMatch | domain/match.go:380-410 | the match comes back with its id and its home, away and winner ids trimmed, and the list gains exactly the match's problems, in the order checked |
| Matches.ValidateEntry | domain/match.go:361-370 | one round validates the match under "index <i>" and, under the same label, reports its trimmed id as duplicate when an earlier match had it |
| Matches.ValidateMatches | domain/match.go:357-378 | the collection is accepted exactly when nothing is reported, and then every match comes back trimmed; otherwise the error holds every report, each under the match's 0-based index |
| Matches.TrimAll | domain/match.go:357-378 | the matches `validateMatches` leaves behind, one per input; by position in `TrimAllIndex` |
| Matches.TrimAllIndex | domain/match.go:381 | each match is trimmed in its own position |
| Matches.EntryProblemsEmpty | domain/match.go:363-369 | a match adds nothing exactly when it is well formed and its trimmed id is new |
| Matches.EntryProblems | domain/match.go:361-371 | specification of one loop round of `validateMatches`: the match's own problems, then the duplicate report when its trimmed id was seen; characterised by `EntryProblemsEmpty` |
| Matches.MatchesProblems | domain/match.go:357-378 | specification of the reports of `validateMatches`, each round's under "index <i>"; characterised by `MatchesProblemsEmpty` |
| Matches.MatchesProblemsEmpty | domain/match.go:357-378 | `validateMatches` accepts exactly when every trimmed match is well formed and the trimmed ids are distinct |
| Matches.IdSetMembers | domain/match.go:367-370 | the set of ids seen holds exactly the trimmed ids met so far |
| MatchCsv.ParseTimestampDateOnly | domain/match.go:229-241 | a date cell with an empty time cell is parsed on its own, and the problem quotes it unchanged |
| MatchCsv.ParseTimestampFailure | domain/match.go:229-241 | there is a problem exactly when the joined, trimmed text is not blank and does not parse; the value is then the zero time |
| MatchCsv.ParseTimestamp | domain/match.go:229-241 | a problem always comes with the zero time; `ParseTimestampFailure` says when there is one |
| MatchCsv.ParseUInt8 | domain/match.go:244-256 | there is no problem exactly when the cell is empty or an integer, and a problem always comes with the value 0 |
| MatchCsv.ParseUInt8Decimal | domain/match.go:244-256 | a decimal integer reads as its low eight bits without a problem: values in range as themselves, 256 as 0 |
| MatchCsv.ConvertToMatchStage | domain/match.go:345-355 | there is no problem exactly when the cell is "GROUP" or "KO", and the stage is the zero stage exactly when there is a problem |
| MatchCsv.DecimalLacks | domain/match.go:264-306 | a written count, minute or offset holds none of the separators ':', '+' and ';' |
| MatchCsv.StageRoundTrip | domain/match.go:345-355 | every known stage reads back from its name; a cell that reads without a problem is a stage's name, and never gives the zero stage |
| MatchCsv.ParseMatchEvent | domain/match.go:296-343 | an entry that reads has exactly one ':', and its name is the trimmed text before it; the other outcomes are stated by `ParseEventText`, `FormatEventRoundTrip` and `ParseEventNotPositive` |
| MatchCsv.ParseEventText | domain/match.go:296-343 | an event written with a minute of at least one and a non-negative offset reads back with both taken modulo 256 |
| MatchCsv.FormatEventRoundTrip | domain/match.go:296-343 | writing an event with a trimmed, separator-free name and a positive minute and reading it back gives the event |
| MatchCsv.ParseEventNotPositive | domain/match.go:319-335 | a minute below one is refused with "minute: must be greater than 0", and an offset below one with "offset: must be greater than 0" |
| MatchCsv.ParsedEventName | domain/match.go:303 | an event that reads has a name that is trimmed and free of ':' |
| MatchCsv.ParsedEventsCounted | domain/match.go:264-287 | a cell whose first piece counts the others holds what those pieces read as |
| MatchCsv.ParsedEvents | domain/match.go:258-294 | specification of `parseMatchEvents`: a blank cell gives nothing; a missing or wrong count gives one problem and no events; otherwise the events that read and each failed entry's problem under "event <k>"; characterised by `ParsedEventsCounted`, `AllSucceed` and `FormatEventsRoundTrip` |
| MatchCsv.EventsOf | domain/match.go:281-293 | the events kept from the entries' outcomes, never more than there are entries; in order in `AllSucceed` |
| MatchCsv.EventsProblems | domain/match.go:281-293 | specification of the failed entries' reports under "event <k>", counting from one; empty when every entry reads (`AllSucceed`) |
| MatchCsv.AllSucceed | domain/match.go:282-290 | entries that all read give their events, in order, and no problem |
| MatchCsv.OutcomesOfTexts | domain/match.go:296-343 | every entry written for a writable event reads back as that event, with no problem |
| MatchCsv.FormatEventsRoundTrip | domain/match.go:258-294 | writing writable events to a cell and reading it back gives the events and no problem |
| MatchCsv.ParseMatchEvents | domain/match.go:258-294 | the loop returns exactly the events that read, in order, and adds exactly the cell's problems: a blank cell gives none, a missing count or wrong count one problem, otherwise each failed entry under "event <k>" |
| MatchCsv.AddEvent | domain/match.go:283-286 | a failed entry is reported under its 1-based "event <k>" view and skipped; a good one is appended |
| MatchCsv.PlaceholderTeam | domain/match.go:210-224 | a placeholder team is made exactly for a non-empty id, and carries only that id |
| MatchCsv.ParseCompetitor | domain/match.go:195-206 | the four cells of a side are read in order, each with its problems under its own view |
| MatchCsv.TransformCSVRowToMatch | domain/match.go:173-227 | the match and the problems for a 16-field row are exactly those `ParseRow` gives |
| MatchCsv.ParseRow | domain/match.go:173-227 | specification of `transformCSVRowToMatch`: the match read from the sixteen cells in header order, and the problems in the order timestamp, stage, home cells, away cells; characterised by `RowRoundTrip` |
| MatchCsv.PlaceholderRoundTrip | domain/match.go:210-224 | an absent or id-only team survives being written to its cell and read back |
| MatchCsv.ParseSide | domain/match.go:195-206 | a side read from its four cells carries no team yet (set from the id column later); problems under "<side> goals", "… yellow cards", "… own goals", "… red cards" |
| MatchCsv.ParseSideClean | domain/match.go:195-206 | a side reads without a problem exactly when its goals, yellow-card, own-goal and red-card cells each do |
| MatchCsv.SideRoundTrip | domain/match.go:195-206 | the cells written for a side read back as that side, with no problem |
| MatchCsv.RowRoundTrip | domain/match.go:173-227 | writing a match as a row and transforming the row gives the match back with no problem |
| MatchCsv.TransformedRefusesShape | domain/match.go:146-152 | fewer than two records or a wrong header fails as a single error, before any row is read |
| MatchCsv.TransformedAccepts | domain/match.go:154-170 | with a good header and a data row, the file is accepted exactly when no row has a problem, and then it gives one match per data row, in order |
| MatchCsv.Transformed | domain/match.go:145-171 | specification of `transformCSVToMatches`: the row-count and header failures, then acceptance exactly when no row has a problem; characterised by `TransformedRefusesShape` and `TransformedAccepts` |
| MatchCsv.TransformCSVToMatches | domain/match.go:145-171 | the loop gives exactly `Transformed`: the row-count and header errors first, then every row's problems under "row <k>" |
| MatchCsv.TransformRows | domain/match.go:154-165 | every row is transformed, even after earlier problems, each through its own 1-based "row <k>" view |
| MatchCsv.TransformRow | domain/match.go:159-164 | one row gives the match `ParseRow` makes of it, and its problems under "row <k>" |
| MatchCsv.LoadMatches | domain/match.go:105-143 | an empty path gives "path: is empty"; open and read failures are wrapped; a transform failure is wrapped in "cannot transform csv"; otherwise the result is exactly `validateMatches` of the transformed matches |
| Tournaments.Tournament.constructor | domain/tournament.go:14-22 | a tournament holds the given fields |
| Tournaments.LoaderInitAsWritten | domain/tournament.go:65-87 | `TournamentFSLoader.init` as written: the first missing setting is reported, and a missing markup path as "config path: is empty" |
| Tournaments.LoaderInit | domain/tournament.go:65-87 | `TournamentFSLoader.init` as intended: each missing setting is reported under its own name |
| Tournaments.LoaderInitMisnames | domain/tournament.go:74-76 | as written, a missing markup path is reported as "config path: is empty" |
| Tournaments.LoaderInitNamesSetting | domain/tournament.go:65-87 | as intended, the loader starts exactly when every setting is present, and each message names the setting that is missing |
| Tournaments.RequiredFields | domain/tournament.go:171-181 | specification of the three "is empty" checks in the source's order; characterised by `RequiredFieldsEmpty` |
| Tournaments.RequiredFieldsEmpty | domain/tournament.go:171-181 | the required fields give no problem exactly when id, name and image url are all non-empty, and at most three in all |
| Tournaments.AddRequired | domain/tournament.go:171-181 | adds "id: is empty", "name: is empty" and "image url: is empty" for the empty fields, in that order |
| Tournaments.PopulateTeamByID | domain/tournament.go:208-225 | a nil reference or an empty id is returned unchanged with no problem; a reference stays present or absent and keeps its id; there is no problem exactly when the reference is absent, has no id, or names one of the teams |
| Tournaments.PopulateFound | domain/tournament.go:217-222 | a non-empty id that one of the teams has is replaced by the first such team, every field copied, without a problem |
| Tournaments.PopulateMissing | domain/tournament.go:217-220 | a non-empty id that no team has is kept unchanged and reported as "team id '<id>': not found" |
| Tournaments.PopulateIdempotent | domain/tournament.go:208-225 | resolving an already-resolved reference changes nothing and reports the same |
| Tournaments.AckedPopulated | domain/tournament.go:190-202 | the audit counts a resolved team exactly as it would count the reference |
| Tournaments.EnrichMatchKeeps | domain/tournament.go:190-199 | resolution changes only the teams of a match: everything else stays, and so do the teams' ids and presence |
| Tournaments.EnrichMatch | domain/tournament.go:190-199 | one match is resolved home, away, winner, and it meets no problem exactly when each of the three references is absent, has no id, or names one of the teams |
| Tournaments.MatchSidesOccurrences | domain/tournament.go:200-202 | the audit meets a team exactly when the team is home or away in some match |
| Tournaments.TournamentAudit | domain/tournament.go:183-205 | a team is reported exactly when it is one of the tournament's teams and is neither home nor away in any match, and then with count 0 |
| Tournaments.EnrichedClean | domain/tournament.go:185-198 | resolving the matches reports nothing exactly when every match's present home, away and winner references with an id name one of the teams |
| Tournaments.TournamentAuditEmpty | domain/tournament.go:183-205 | the audit of a tournament reports nothing exactly when each of its teams is home or away in some match |
| Tournaments.TournamentProblems | domain/tournament.go:166-206 | specification of the reports of `validateTournament`: required fields, then each match's resolution problems under "match <k>", then the unplayed teams; characterised by `TournamentProblemsEmpty` and `TournamentAudit` |
| Tournaments.TournamentProblemsEmpty | domain/tournament.go:166-206 | a tournament is accepted exactly when its trimmed id, name and image url are set, every present home, away and winner with an id names one of its teams, and every one of its teams is home or away in some match |
| Tournaments.EnrichOne | domain/tournament.go:187-202 | one match is resolved home, away, winner, with problems under "match <k>: home/away/winner", and the audit meets its home and away teams |
| Tournaments.EnrichAt | domain/tournament.go:185-203 | one round of the match loop advances the resolved matches, the audit counters and the reports by one match |
| Tournaments.EnrichMatches | domain/tournament.go:185-203 | every match is resolved in place; the audit meets every home and away team; the problems of each match go under its 1-based number |
| Tournaments.ValidateFields | domain/tournament.go:167-181 | id, name and image url are trimmed in place, and the empty ones are reported |
| Tournaments.ValidateMatchTeams | domain/tournament.go:183-205 | the matches are resolved in place, then the audit reports the teams that never play |
| Tournaments.ValidateTournament | domain/tournament.go:166-206 | trims the fields and resolves the matches in place, and appends exactly `TournamentProblems`: required fields, then resolution problems, then unplayed teams |
| Tournaments.CheckTournament | domain/tournament.go:156-163 | the tournament is accepted exactly when it has no problem, and otherwise the error aggregates all of them |
| Tournaments.GetByID | domain/tournament.go:229-237 | a tournament found carries the id; nothing is found exactly when every entry is nil or has another id |
| Tournaments.GetByIDFirst | domain/tournament.go:229-237 | the lookup returns the first non-nil tournament with the id |
| Tournaments.Ids | domain/tournament.go:262-268 | one id per tournament, each that of the tournament at its position |
| Tournaments.DuplicateIds | domain/tournament.go:258-275 | one "is duplicate" report per later occurrence of an id; the first id never is one, so there are fewer reports than ids; characterised by `DuplicateIdsEmpty` and `DuplicateIdsCount` |
| Tournaments.DuplicateIdsEmpty | domain/tournament.go:258-275 | there is no duplicate report exactly when the ids are distinct |
| Tournaments.DuplicateIdsCount | domain/tournament.go:262-268 | every occurrence after the first is reported once: reports plus distinct ids equal all ids |
| Tournaments.AddDuplicate | domain/tournament.go:264-266 | a seen id is reported as "id '<id>': is duplicate"; a new one adds nothing |
| Tournaments.ValidateTournaments | domain/tournament.go:258-275 | the collection is returned unchanged exactly when there is no duplicate, and otherwise the error holds a report for every later occurrence, in order |
| Tournaments.FirstFailure | domain/tournament.go:246-250 | the first failing loader, with every earlier one successful; none exactly when all succeed |
| Tournaments.FirstFailureAt | domain/tournament.go:246-250 | a failure preceded only by successes is the first failure |
| Tournaments.Loaded | domain/tournament.go:252 | the tournaments of successful loaders, in loader order |
| Tournaments.NewTournamentCollection | domain/tournament.go:243-256 | the first loader failure stops the collection with "loader index <i>"; otherwise the loaded tournaments are checked for duplicate ids |
| Tournaments.SortTeams | domain/tournament.go:134-146 | `sort_teams` gives the same teams ordered by name, teams with equal names in input order |
| Sweepstakes.GetByTeamID | domain/sweepstake.go:117-125 | the participant found is one of the collection and drew the team; nothing is found exactly when no participant drew it |
| Sweepstakes.GetByTeamIDFirst | domain/sweepstake.go:117-125 | the lookup returns the first participant with the team |
| Sweepstakes.Sweepstake.constructor | domain/sweepstake.go:18-26 | a decoded sweepstake holds the given fields and no tournament yet |
| Sweepstakes.TrimParticipants | domain/sweepstake.go:306-308 | one trimmed participant per input; by position in `TrimParticipantsIndex` |
| Sweepstakes.TrimParticipantsIndex | domain/sweepstake.go:306-308 | each participant is trimmed in its own position |
| Sweepstakes.TrimParticipantsIdempotent | domain/sweepstake.go:306-308 | trimming the participants again changes nothing |
| Sweepstakes.ParticipantProblems | domain/sweepstake.go:306-315 | specification of the "unrecognised participant team id" reports under "participant index <i>"; characterised by `ParticipantProblemsEmpty` |
| Sweepstakes.ParticipantProblemsEmpty | domain/sweepstake.go:306-315 | no participant problem exactly when every participant's trimmed team id is one of the tournament's teams |
| Sweepstakes.SidesBackers | domain/sweepstake.go:312 | the audit meets a team once for every participant who drew it |
| Sweepstakes.SweepstakeAudit | domain/sweepstake.go:317 | a team is reported exactly when it is one of the tournament's teams and the number of participants who drew it is not one, and then with that number |
| Sweepstakes.SweepstakeProblems | domain/sweepstake.go:288-320 | specification of the reports of `validateSweepstake`: required fields, participant problems, then the exactly-once audit; characterised by `SweepstakeProblemsEmpty` |
| Sweepstakes.SweepstakeProblemsEmpty | domain/sweepstake.go:288-320 | a sweepstake is accepted exactly when its trimmed id, name and image url are set, every participant's trimmed team id names a tournament team, and every tournament team was drawn by exactly one participant |
| Sweepstakes.ValidateSweepstakeFields | domain/sweepstake.go:289-303 | id, name and image url are trimmed in place, and the empty ones are reported |
| Sweepstakes.CheckOne | domain/sweepstake.go:310-314 | the audit meets the participant's team, and a refused team is reported under "participant index <i>" as "unrecognised participant team id: <id>" |
| Sweepstakes.CheckParticipant | domain/sweepstake.go:306-315 | one round of the participant loop trims the participant in place and advances the counters and the reports by one participant |
| Sweepstakes.CheckParticipants | domain/sweepstake.go:306-315 | every participant is trimmed in place and met by the audit, and each one with an unknown team is reported under its 0-based index |
| Sweepstakes.ValidateParticipants | domain/sweepstake.go:305-317 | the participant loop, then the exactly-once audit |
| Sweepstakes.ValidateSweepstake | domain/sweepstake.go:288-320 | trims the fields and the participants in place, and appends exactly `SweepstakeProblems`: required fields, unknown teams, then teams not drawn exactly once |
| SweepstakeCollection.Entries | domain/sweepstake.go:268-279 | the validation-relevant view of each linked sweepstake, in order |
| SweepstakeCollection.ValidatedIdempotent | domain/sweepstake.go:289-308 | validating a sweepstake again changes none of its fields |
| SweepstakeCollection.DuplicateOf | domain/sweepstake.go:272-274 | a duplicate report exactly when an earlier raw id is equal |
| SweepstakeCollection.CollectedEmpty | domain/sweepstake.go:268-285 | nothing is collected exactly when the ids are distinct and no position has a problem of its own |
| SweepstakeCollection.SweepstakesProblems | domain/sweepstake.go:264-286 | specification of the reports of `validateSweepstakes`: per sweepstake, the duplicate report on its raw id, then its own problems; characterised by `SweepstakesProblemsEmpty` |
| SweepstakeCollection.SweepstakesProblemsEmpty | domain/sweepstake.go:264-286 | a collection is accepted exactly when its raw ids are distinct and no sweepstake has a problem of its own |
| SweepstakeCollection.MarkDuplicate | domain/sweepstake.go:269-274 | a repeated raw id is reported as "id '<id>': is duplicate" |
| SweepstakeCollection.ValidateOne | domain/sweepstake.go:269-278 | the duplicate check on the raw id, then validation, which leaves the sweepstake validated |
| SweepstakeCollection.ValidateAt | domain/sweepstake.go:268-279 | round `i` validates sweepstake `i` and leaves every other sweepstake as it was |
| SweepstakeCollection.ValidateEach | domain/sweepstake.go:268-279 | every sweepstake is checked and validated in turn, even after earlier problems, and the list holds exactly the collected problems |
| SweepstakeCollection.ValidateSweepstakes | domain/sweepstake.go:264-286 | every sweepstake is validated in place; the collection is returned exactly when nothing is reported, otherwise the error aggregates every problem |
| SweepstakeLoader.LoaderInit | domain/sweepstake.go:208-217 | the loader starts exactly when it has both tournaments and a source: first "tournaments: is empty", then "source: is empty" |
| SweepstakeLoader.FirstUnknown | domain/sweepstake.go:247-255 | the first position whose tournament id names no tournament, all earlier ones known; none exactly when every id is known |
| SweepstakeLoader.FirstUnknownAt | domain/sweepstake.go:252-255 | an unknown id after known ones is the first unknown |
| SweepstakeLoader.FirstUnknownNone | domain/sweepstake.go:247-259 | with every id known there is no first unknown |
| SweepstakeLoader.LinkedEntries | domain/sweepstake.go:247-258 | with every id known, each sweepstake is paired with the teams of its tournament |
| SweepstakeLoader.LinkTournaments | domain/sweepstake.go:246-259 | each sweepstake in turn gets the first tournament with its id, stopping at the first unknown id; the sweepstakes after it are untouched |
| SweepstakeLoader.LinkAll | domain/sweepstake.go:246-259 | the link loop reports the first unknown tournament id, with only the sweepstakes before it linked; when there is none, every sweepstake holds the first tournament with its id, and the sweepstakes to validate are those `LinkedEntries` describes |
| SweepstakeLoader.LoadSweepstakes | domain/sweepstake.go:242-261 | an empty list gives "no sweepstakes found in source data"; the first unknown tournament id aborts, leaving only the earlier sweepstakes linked and every other field untouched; otherwise every sweepstake is linked and the result is exactly that of `validateSweepstakes` |
| SweepstakeLoader.UnknownTournamentMessage | domain/sweepstake.go:254 | the abort reads "sweepstake index <i>: tournament id '<id>': not found" |
| Prizes.Summary | domain/prizes.go:44-50 | the summary is at least as long as the team name, and with a named participant it is exactly three characters longer than both names |
| Prizes.SummaryShape | domain/prizes.go:44-50 | the summary is the bare team name exactly when there is no named participant, and otherwise reads "<participant name> (<team name>)" |
| Prizes.PrizeFor | domain/prizes.go:35-41 | the prize carries the team's image url |
| Prizes.WinnerPrize | domain/prizes.go:28-32 | no winner of the final gives the default prize |
| Prizes.RunnerUpPrize | domain/prizes.go:58-62 | no runner-up of the final gives the default prize |
| Prizes.WinnerOfFinal | domain/prizes.go:28-41 | the winner is the summary and image of the first "F" match's winner when that match is completed with a winner, and the default otherwise |
| Prizes.WinnerWithoutFinal | domain/prizes.go:28-32 | without an "F" match the winner is the default |
| Prizes.RunnerUpOfFinal | domain/prizes.go:58-71 | in a completed final between different teams the runner-up prize goes to the side that did not win; an incomplete final or one without a winner gives the default |
| Prizes.PrizeForFirstParticipant | domain/prizes.go:35 | the prize is credited to the first participant registered with the team |
| Prizes.TournamentWinner | domain/prizes.go:23-42 | a nil sweepstake gives the default ("TBC", no image); otherwise the winner prize of its tournament's matches |
| Prizes.TournamentRunnerUp | domain/prizes.go:53-72 | a nil sweepstake gives the default; otherwise the runner-up prize of its tournament's matches |
| Markup.Gate | domain/sweepstake.go:33-54 | a prize is present exactly when its flag is set, and then it is the generator's value |
| Markup.Fallback | domain/sweepstake.go:56-66 | the sweepstake's own text, or the tournament's when its own is empty |
| Markup.PrizeDataOf | domain/sweepstake.go:33-54 | each of the six prizes is present exactly when its flag is set |
| Markup.MarkupDataOf | domain/sweepstake.go:28-101 | the title and image fall back to the tournament's; the last-updated stamp is set only when the tournament asks for it; the winner and runner-up are `TournamentWinner` and `TournamentRunnerUp`; each of the four ranked prizes, when shown, is the ranked-prize generator's value |
| Markup.MarkupGating | domain/sweepstake.go:33-66 | the title (or image) is empty exactly when both the sweepstake's and the tournament's are; a prize is shown exactly when the sweepstake awards it |

## Left out

- Byte acquisition is not modelled: `BytesFromFileSystem`, `BytesFromURL` and their HTTP checks, opening and reading files, and `TeamsJSONLoader.LoadTeams`. These are file and network I/O. `LoadMatches` takes the file system and CSV reader as a function from path to outcome.
- CSV tokenising and JSON decoding are library code. Their outputs are inputs here: records as `seq<seq<string>>`, decoded sweepstakes as `Sweepstake` objects with their tournament ids beside them.
- `LoadTournament` is modelled only by its validation step (`CheckTournament`) and its settings check: `LoaderInitAsWritten` as the code is written, `LoaderInit` as evidently intended (see Findings). Reading the config and markup files, decoding them, calling the teams and matches loaders, and parsing the template are I/O and library work.
- Template parsing and execution, and the failure of `ExecuteTemplate` in `GenerateMarkup`, are not modelled. `MarkupDataOf` models the data handed to the template.
- The current time in `GenerateMarkup` is the parameter `now`, already formatted.
- The ranked prizes are inputs (`RankedResults`). The source has no generators for them, only TODO comments and data types.
- The calendar check inside `time.Parse` is the parameter `parse`. Timestamps are integers, with zero standing for Go's zero time.
- `strconv.Atoi` is an optional sign followed by one or more ASCII digits, with no overflow limit. Its error text is the fixed `strconv.Atoi: parsing "<s>": invalid syntax`, without Go's `%q` escaping.
- `sync.Map` is used from one goroutine as a set, and is a Dafny `set<string>`. Concurrency is not modelled.
- Matches, teams and participants are values. An in-place update through a pointer (`*team = *t`, trimming a participant) replaces the element in the sequence that owns it. Aliasing between two pointers to the same match, team or participant is not modelled.
- Collections of values have no nil entries, so the lookups skip no nil match, team or participant. The tournament collection keeps its nil entries (`seq<Tournament?>`), and its lookup skips them.
- A `Tournament`'s team list is fixed once the tournament is built; the source never changes it after loading.
- `ValidateSweepstakes`, `LinkTournaments` and `LoadSweepstakes` require the sweepstakes to be different objects, as decoding makes them.
- `MarkupDataOf`, `ValidateSweepstake` and `TournamentWinner`/`TournamentRunnerUp` require a sweepstake that has its tournament. The Go code would dereference a nil pointer otherwise.
- The main program is not modelled: command-line handling, walking directories, writing markup files, and the joke fetched over HTTP.
- `ErrIsEmpty` is declared twice in the source (domain/errors.go:10 and domain/team.go:14). The model has one constant with the same text.
- The `MultiError` interface lacks `WithPrefix`, which the source nevertheless calls on views. The model gives every handle `WithPrefix`, as the tests expect.
- `GetRunnerUpByMatchID`, `TeamCollection.GetByID` and the team audit are not part of the source files modelled here. They are modelled from their call sites and the tests. The audit reports its messages in ascending order.
- Teams.TeamsAudit.Validate: the audit's report order is ascending string order; nothing in the source fixes it beyond the tests listing ids alphabetically. The order is that of the whole message texts, so it can differ from id order when one id is a prefix of another followed by a character below `'` (ids "A" and "A B" report "A B" first).
- Strings are sequences of characters, while Go's strings, `strings.Trim`, `strings.Split` and `<` work on bytes. The two agree on valid UTF-8; a CSV or JSON cell holding invalid UTF-8 has no counterpart in the model.

## Findings

| source | as written | input that shows it | evidently intended | confidence | as-written member | corrected member |
|---|---|---|---|---|---|---|
| domain/tournament.go:74-76 | a missing markup path is reported as "config path: is empty" | a loader with a config path set and an empty markup path | "markup path: is empty" | not executed | Tournaments.LoaderInitMisnames | Tournaments.LoaderInitNamesSetting |
