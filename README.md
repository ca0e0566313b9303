# FootballRanking in Dafny

This project models FootballRanking, a TypeScript routine that turns a season of football results into a ranked league table. The model proves the routine's properties.

The season is a sequence of rounds, and each round is a sequence of matches. Each match names two teams and carries two scores. The routine works in two steps:

- **Aggregation (createTeamMap).** It walks every match of every round once, in order, and keeps one `TeamData` object per team identifier.
  - A team's object is created, with all counters at zero, the first time a match mentions the team. Its name comes from that match.
  - Each match then calls `addMatch` on team 1 with `(score1, score2)` and on team 2 with `(score2, score1)`.
  - An object stores games played, wins, draws, goals for and goals against. Goal difference, defeats (`losses` in the script) and points (3 per win, 1 per draw) are derived on demand.
- **Ranking (sortByRank).** It visits the teams in the order their identifiers were first seen.
  - It pushes each team's row and swaps it upward while `rankingRule1` says the row strictly outranks the one in front of it. `rankingRule1` is the lexicographic test on points, then goal difference, then goals for.
  - A final loop numbers the rows 1..N.
  - `generateLeagueTable` puts the rows under the season's name, or under "" when the season has no name.

`src/main.ts` is an earlier standalone copy of the aggregation. It keys the teams by `code` instead of `key` and names its derived accessor `losses`.

Where the source changes things in place, the model does too:

- `TeamData` is a class whose `AddMatch` updates its fields.
- The JavaScript object used as the team map is an insertion-ordered key sequence plus a `map<string, TeamData>` that the loops extend.
- The nested loops of `createTeamMap` and the `push`/swap/number loops of `sortByRank` are `while`/`for` loops over sequences.

Every imperative member is proved against a value model:

- `Aggregation.Aggregate`, the team map as a table value, built one `Step` per match.
- `Ranking.SortRows`, an insertion per row. `Ranking.Ranked` gives the numbering.

The properties of the routine are lemmas about these functions:

- **Aggregation.** One entry per distinct identifier; first-sighting names; per-team counters equal to sums over the matches; table-wide balances.
- **Ranking.** The comparator is a strict weak order. The result is ordered and is a permutation of the input rows. Ties keep their first-seen order. Ranks run 1..N.
- **The script.** For an injective key-to-code correspondence, the code-keyed map of `main.ts` is the generator's key-keyed map renamed.

Modules, one per file:

- `Fixtures`: input shapes.
- `Tally`: a team's totals as a value.
- `Aggregation`: the team-map value and its lemmas.
- `Ranking`: rows, the rules and the insertion sort as functions.
- `LeagueTableGenerator`: `src/leagueTableGenerator.ts`.
- `MainScript`: `src/main.ts`.
- `ExampleSeasons`: two small seasons worked out in full.

## Model

| member | source | states |
|---|---|---|
| Tally.Record.WithMatch | src/leagueTableGenerator.ts:77-87 | one more match adds 1 game and both scores; a draw iff the scores are equal, a win iff goals for exceed goals against, otherwise a defeat (defeats grow by 1 iff gf < ga); the name is kept; consistency is preserved |
| Tally.Record.GoalDiff | src/leagueTableGenerator.ts:88-89 | goal difference plus goals against is goals for, and lies between -goalsAgainst and goalsFor |
| Tally.Record.Defeats | src/leagueTableGenerator.ts:90-91 | wins + draws + defeats = games played, and defeats are non-negative exactly when the record is consistent |
| Tally.Record.Points | src/leagueTableGenerator.ts:92-93 | points are 3 per win plus 1 per draw, between 0 and 3 per game played for a consistent record |
| Tally.Zero | src/leagueTableGenerator.ts:68-75 | a new record carries the given name, is consistent, and has games played, wins, draws, goals for, goals against and defeats all zero |
| Tally.ReplayFromZero | src/main.ts:48-67 | from the constructor's zero state, any sequence of addMatch calls keeps losses non-negative, counts one game per call and never changes the name |
| Tally.WithMatchGain | src/leagueTableGenerator.ts:77-87 | each counter moves by exactly what the match contributes to it |
| LeagueTableGenerator.TeamData.constructor | src/leagueTableGenerator.ts:68-75 | a new object holds the zero record for its name |
| LeagueTableGenerator.TeamData.AddMatch | src/leagueTableGenerator.ts:77-87 | the object's fields become the record after one more match; consistency is preserved |
| LeagueTableGenerator.TeamData.GoalDiff | src/leagueTableGenerator.ts:88-89 | goal difference plus goals against is goals for |
| LeagueTableGenerator.TeamData.Defeats | src/leagueTableGenerator.ts:90-91 | wins + draws + defeats = games played; defeats are non-negative iff the object is consistent |
| LeagueTableGenerator.TeamData.Points | src/leagueTableGenerator.ts:92-93 | 3 per win plus 1 per draw, at most 3 per game for a consistent object |
| LeagueTableGenerator.EnsureTeam | src/leagueTableGenerator.ts:152-157 | an unseen key gets a fresh zeroed object named by the match and is appended to the key order; a known key, and every other entry, is left as it was |
| LeagueTableGenerator.CreditTeam | src/leagueTableGenerator.ts:158-159 | `addMatch` on one key's object changes that team's totals as one more match and no other team's |
| LeagueTableGenerator.AdmitBoth | src/leagueTableGenerator.ts:152-157 | both teams of a match have objects afterwards, team1 admitted first; existing objects are kept and new ones are fresh |
| LeagueTableGenerator.CreditBoth | src/leagueTableGenerator.ts:158-159 | team1 is credited with (score1, score2), then team2 with (score2, score1) |
| LeagueTableGenerator.RecordMatch | src/leagueTableGenerator.ts:149-159 | one pass of the inner loop turns the map into the value model's map after one more Step |
| LeagueTableGenerator.RecordRound | src/leagueTableGenerator.ts:146-160 | one pass of the outer loop turns the map of the matches before the round into the value model's map of those matches followed by the round's matches, in order; every object is an old one or fresh |
| LeagueTableGenerator.CreateTeamMap | src/leagueTableGenerator.ts:142-164 | the keys and objects built by the nested loops hold exactly the value team map of all matches of all rounds in order; distinct keys never share an object |
| Aggregation.Admit | src/leagueTableGenerator.ts:152-157 | the identifier is recorded afterwards and nothing else is added; a known identifier leaves the key order and every record as they were; an unseen one is appended to the key order with the zero record named by the match, and no existing record changes |
| Aggregation.Credit | src/leagueTableGenerator.ts:158-159 | crediting a recorded team keeps the key order and identifiers, replaces its record by the record after one more match, and leaves every other team's record as it was |
| Aggregation.Step | src/leagueTableGenerator.ts:149-159 | a match adds exactly its two identifiers to the map |
| Aggregation.Aggregate | src/leagueTableGenerator.ts:145-161 | the team map after the matches in order; each match brings at most its two teams, so there are at most twice as many keys as matches |
| Aggregation.TeamMap | src/leagueTableGenerator.ts:142-164 | the team map of all rounds' matches, with at most two teams per match played |
| Aggregation.StepWeight | src/leagueTableGenerator.ts:158-159 | every counter of every identifier moves by exactly what the match earns it: team1 gets (score1, score2), team2 gets (score2, score1), everyone else nothing |
| Aggregation.StepFrame | src/leagueTableGenerator.ts:149-159 | a match changes only the records of its own two teams, never renames a team, names a new team as the match does, and only appends to the key order |
| Aggregation.AggregateWellFormed | src/leagueTableGenerator.ts:142-164 | the team map never lists an identifier twice, lists exactly the recorded identifiers, and keeps wins + draws within games played for every team |
| Aggregation.AggregateKeys | src/leagueTableGenerator.ts:142-164 | an identifier is in the map iff some match mentions it |
| Aggregation.AggregateExtends | src/leagueTableGenerator.ts:152-157 | the key order after a prefix of the matches is a prefix of the final key order |
| Aggregation.FirstSeenOrder | src/leagueTableGenerator.ts:152-157 | if match i mentions k and k2 is first mentioned by a later match j, then k comes before k2 in the key order |
| Aggregation.FirstSeenTogether | src/leagueTableGenerator.ts:152-157 | when one match is the first to mention both of its (distinct) teams, team1 comes immediately before team2 in the key order; with FirstSeenOrder, the key order is the order of first mentions in the matches |
| Aggregation.IntroducesBoth | src/leagueTableGenerator.ts:152-157 | a match mentioning two teams no earlier match mentions appends team1 then team2 to the key order |
| Aggregation.KeysMentioned | src/leagueTableGenerator.ts:142-164 | an identifier is in the key order iff some match mentions it |
| Aggregation.AggregateKeepsName | src/leagueTableGenerator.ts:152-157 | a team recorded after a prefix of the matches is still recorded at the end, under the same name |
| Aggregation.FirstSightingName | src/leagueTableGenerator.ts:152-157 | a team's name is the one the first match that mentions it gives it |
| Aggregation.TeamTotals | src/leagueTableGenerator.ts:158-159 | every counter of every team equals the sum, over all matches, of what each match contributes to that team |
| Aggregation.TeamRecord | src/leagueTableGenerator.ts:142-164 | a team's full record: present, named by its first match, each counter the total over the matches |
| Aggregation.AggregateSums | src/leagueTableGenerator.ts:158-159 | over the whole map, games played sum to twice the number of matches, goals for to goals against, and wins to defeats |
| Aggregation.KeyCount | src/leagueTableGenerator.ts:142-164 | the map has exactly one entry per distinct identifier mentioned by some match |
| Fixtures.AllMatchesSnoc | src/leagueTableGenerator.ts:145-148 | the nested loops visit the rounds in order and each round's matches in order |
| Fixtures.AllMatchesCount | src/leagueTableGenerator.ts:145-148 | the loops visit as many matches as all rounds hold |
| Ranking.RowOf | src/leagueTableGenerator.ts:175-186 | the pushed row has rank 0, the team's name and stored counters, and the derived values defeats, goal difference and points |
| Ranking.RowOfFields | src/leagueTableGenerator.ts:175-186 | every counter the row shows is the record's counter |
| Ranking.RankingRule3 | src/leagueTableGenerator.ts:110-116 | the last tie-break: for rows level on points and goal difference, it holds exactly when the first row ranks above the second in the points, goal difference, goals for order |
| Ranking.RankingRule2 | src/leagueTableGenerator.ts:110-126 | the tie-break on equal points: for rows level on points, it holds exactly when the first row ranks above the second in the points, goal difference, goals for order |
| Ranking.RankingRule1 | src/leagueTableGenerator.ts:116-136 | a row outranks another exactly when it is higher on the first of points, goal difference and goals for on which they differ |
| Ranking.RankingRule1Order | src/leagueTableGenerator.ts:116-136 | the rule is irreflexive, false between rows that tie on all three criteria, asymmetric and transitive; rows that do not tie are comparable and non-outranking chains |
| Ranking.InsertRow | src/leagueTableGenerator.ts:175-193 | the push and the swap loop as a function: the table grows by exactly one row (length only; its content is stated by the lemmas below) |
| Ranking.SortRows | src/leagueTableGenerator.ts:173-194 | every row pushed and bubbled up in turn: as many rows out as in (length only; content by the lemmas below) |
| Ranking.InsertRowPerm | src/leagueTableGenerator.ts:175-193 | pushing a row and bubbling it up adds that row and loses none |
| Ranking.InsertRowOrdered | src/leagueTableGenerator.ts:187-193 | bubbling a row into an ordered table leaves it ordered |
| Ranking.SortRowsPerm | src/leagueTableGenerator.ts:173-194 | the sorted rows are a permutation of the pushed rows |
| Ranking.SortRowsOrdered | src/leagueTableGenerator.ts:173-194 | no sorted row outranks a row before it |
| Ranking.InsertRowTiers | src/leagueTableGenerator.ts:189-193 | bubbling moves a row only past rows it does not tie with |
| Ranking.SortRowsStable | src/leagueTableGenerator.ts:173-194 | rows that tie on all three criteria come out in the order they were pushed |
| Ranking.Ranked | src/leagueTableGenerator.ts:195-197 | the final loop as a function: the same rows in the same positions, the row at position i carrying rank i + 1 |
| Ranking.RankedKeepsOrder | src/leagueTableGenerator.ts:195-197 | numbering neither reorders nor changes the rows' ranking criteria |
| Ranking.RankedSortRows | src/leagueTableGenerator.ts:170-200 | for rows pushed with rank 0: ranks 1..N, best first, the same rows, ties in pushed order |
| LeagueTableGenerator.MirrorsRows | src/leagueTableGenerator.ts:173-186 | the rows read from the objects are the rows of the value table they mirror |
| LeagueTableGenerator.BubbleUp | src/leagueTableGenerator.ts:175-193 | the push and the swap loop insert the row as InsertRow does |
| LeagueTableGenerator.InsertTeams | src/leagueTableGenerator.ts:171-194 | the first loop leaves the rows of all keys sorted as SortRows sorts them |
| LeagueTableGenerator.NumberRows | src/leagueTableGenerator.ts:195-197 | the final loop numbers the rows 1..N in place |
| LeagueTableGenerator.SortByRank | src/leagueTableGenerator.ts:170-200 | the returned rows are the map's rows sorted and numbered |
| LeagueTableGenerator.CreateOutput | src/leagueTableGenerator.ts:101-105 | the document carries the rows as given and the title, or "" when there is none |
| LeagueTableGenerator.LeagueTable | src/leagueTableGenerator.ts:202-207 | the season's table as a value: one row per key of the team map, hence at most two per match, under the season's name or "" |
| LeagueTableGenerator.GenerateLeagueTable | src/leagueTableGenerator.ts:202-207 | the output is the value model's league table of the input |
| LeagueTableGenerator.StandingsShape | src/leagueTableGenerator.ts:170-200 | ranked rows of a well-formed map: one per team, ranks 1..N, best first, ties in key order |
| LeagueTableGenerator.StandingsRows | src/leagueTableGenerator.ts:170-200 | every team has its row among the standings, and every row is some team's row |
| LeagueTableGenerator.StandingsSound | src/leagueTableGenerator.ts:175-186 | every ranked row has non-negative defeats, wins + draws + defeats = games, the right goal difference and points, and at most 3 points per game |
| LeagueTableGenerator.StandingsTeam | src/leagueTableGenerator.ts:175-186 | a team's ranked row shows its name and every one of its counters |
| LeagueTableGenerator.LeagueTableStandings | src/leagueTableGenerator.ts:202-207 | the season's rows are the ranked rows of its team map, which is well formed |
| LeagueTableGenerator.LeagueTableShape | src/leagueTableGenerator.ts:202-207 | the season's table has one row per distinct team key and ranks 1..N |
| LeagueTableGenerator.LeagueTableOrder | src/leagueTableGenerator.ts:202-207 | the season's table is ordered best first and keeps teams tied on all three criteria in the order their keys were first seen, which FirstSeenOrder and FirstSeenTogether tie to the order of their first matches, team1 before team2 within a match |
| LeagueTableGenerator.LeagueTableSound | src/leagueTableGenerator.ts:202-207 | no row of the season's table has negative defeats or more than 3 points per game |
| LeagueTableGenerator.LeagueTableTeam | src/leagueTableGenerator.ts:202-207 | each team mentioned in the season has a row named by its first match, each counter the total over all matches |
| MainScript.TeamData.constructor | src/main.ts:48-55 | a new object holds the zero record for its name |
| MainScript.TeamData.AddMatch | src/main.ts:57-67 | the fields become the record after one more match; consistency is preserved |
| MainScript.TeamData.GoalDiff | src/main.ts:69-71 | goal difference plus goals against is goals for |
| MainScript.TeamData.Losses | src/main.ts:73-75 | wins + draws + losses = games played; losses are non-negative iff the object is consistent |
| MainScript.TeamData.Points | src/main.ts:77-79 | 3 per win plus 1 per draw, at most 3 per game for a consistent object |
| MainScript.EnsureTeam | src/main.ts:93-98 | an unseen code gets a fresh zeroed object named by the match and is appended to the order; other entries are untouched |
| MainScript.CreditTeam | src/main.ts:99-100 | `addMatch` on one code's object changes that team's totals only |
| MainScript.AdmitBoth | src/main.ts:93-98 | both codes of a match have objects afterwards, team1 first |
| MainScript.CreditBoth | src/main.ts:99-100 | team1 is credited with (score1, score2), then team2 with (score2, score1) |
| MainScript.RecordMatch | src/main.ts:89-101 | one pass of the inner loop is one Step of the code-keyed value map |
| MainScript.RecordRound | src/main.ts:86-102 | one pass of the outer loop extends the code-keyed value map by the round's matches, in order; every object is an old one or fresh |
| MainScript.CreateTeamMap | src/main.ts:82-105 | the script's map holds exactly the code-keyed value team map of all matches in order |
| MainScript.ScriptTeamMap | src/main.ts:82-105 | the script's map has one entry per distinct code, no negative losses, and games played summing to twice the number of matches |
| MainScript.AdmitRenamed | src/main.ts:93-98 | admitting a key and admitting its code keep two maps renamings of each other |
| MainScript.CreditRenamed | src/main.ts:99-100 | crediting a key and crediting its code keep two maps renamings of each other |
| MainScript.StepRenamed | src/main.ts:89-101 | one match keeps the key-keyed and code-keyed maps renamings of each other |
| MainScript.CodeMapRenamesKeyMap | src/main.ts:82-105 | when codes are an injective renaming of keys, the script's map is the generator's map with every key renamed: same teams, same totals, same first-seen order |
| ExampleSeasons.TwoTeams | src/leagueTableGenerator.ts:202-207 | a 3-1 win then a 1-1 draw between two teams gives the winner rank 1 with 4 points and the other rank 2 with 1 point, under the name "" |
| ExampleSeasons.LevelTeams | src/leagueTableGenerator.ts:187-197 | two teams level on points, goal difference and goals for get distinct ranks 1 and 2 in first-seen order, ahead of the team both beat |

## Left out

- Serialisation: `JSON.stringify` in `createJSON` is not modelled. The document it would serialise is `OutputData`, and `CreateOutput` models the name default.
- The JSON import and the top-level call `createTeamMap(JSONData.rounds)` in `src/main.ts` are data loading and a script side effect.
- JavaScript numbers: scores are modelled as unbounded non-negative integers (`nat`). Fractional, negative or NaN scores and floating-point rounding of large counters are outside the model.
- Enumeration order of `for…in`: the model visits the keys in insertion order. JavaScript lists integer-like keys ("7", "42") first, in numeric order. The model is exact for identifiers that are not integer-like, as team keys and codes are.
- Inherited object properties: `map[key] === undefined` is modelled as "the key is not in the map". An identifier such as "constructor" would find an inherited property in JavaScript, so no object would be created and the following `addMatch` call would fail. The model does not capture this.
- The unused input fields (`Match.date`, round names, `Team.code` in the generator, `Team.key` in the script) are not kept.
- RankingRow objects: `sortByRank` mutates the `rank` field of row objects that only `sorted` references. The model treats rows as values and writes the update as a sequence update, which is equivalent because nothing else aliases the rows.
- Method boundaries: the body of `createTeamMap`'s outer loop is the method `RecordRound`, and the body of its inner loop is split into `EnsureTeam`/`AdmitBoth` (the two `if` statements) and `CreditTeam`/`CreditBoth` (the two `addMatch` calls). `sortByRank`'s two loops are the methods `InsertTeams` (with `BubbleUp` for the push and the swap loop) and `NumberRows`. The statements and their order are those of the source.
- Match order: the model follows the code, in which the result depends on the order of the matches. The set of teams and its size (`Aggregation.AggregateKeys`, `Aggregation.KeyCount`) and the per-team counters (`Aggregation.TeamTotals`, sums over the matches) do not depend on that order. The key order (`Aggregation.FirstSeenOrder`, `Aggregation.FirstSeenTogether`), the names (`Aggregation.FirstSightingName`) and the order of tied rows do. No lemma states the order independence outright; it follows from those contracts, which mention the matches only through membership and sums.
- Aggregation.Step: its own contract states only the set of identifiers afterwards. What the match does to each record is stated by `StepWeight` (every counter moves by exactly what the match earns that team) and `StepFrame` (other teams unchanged, no renaming, new teams named by the match, keys only appended).
- Aggregation.Aggregate: its own contract states only that there are at most two keys per match. What it computes is stated by `AggregateWellFormed`, `AggregateKeys`, `FirstSeenOrder`, `FirstSightingName` and `TeamRecord`.
- Aggregation.TeamMap: its own contract states only that there are at most two keys per match played. What it computes is stated by the lemmas about `Aggregate`.
- LeagueTableGenerator.LeagueTable: its own contract states only the number of rows, its bound and the table's name. The rows are stated by `LeagueTableShape`, `LeagueTableOrder`, `LeagueTableSound` and `LeagueTableTeam`.
- Ranking.InsertRow: its own contract states only the length. Its content is stated by `InsertRowPerm`, `InsertRowOrdered` and `InsertRowTiers`.
- Ranking.SortRows: its own contract states only the length. Its content is stated by `SortRowsPerm`, `SortRowsOrdered` and `SortRowsStable`.
