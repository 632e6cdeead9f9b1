# Baseball standings and team results, in Dafny

`Baseball.py` reads a teams file and a games file. It then answers two queries:

- the season standings;
- one team's game log with its overall record.

This project models the two computations behind those queries. It proves
what they promise about the games they are given.

- **Standings** (`calculate_standings`): the games are folded, in file order,
  into a map from team code to a win/loss/tie record.
  - A decisive game gives the winner a win and the loser a loss.
  - A tie gives both teams a tie.
  - Every code of the teams table then gets a row with its record and win
    percent. A code that never played gets 0-0-0 and a zero percent.
  - The rows are sorted by percent, highest first. The sort is stable, so
    rows of equal percent keep the table's order.
  - Modelled in `standings.dfy` (module `SeasonStandings`).
- **Team results** (the computation inside `display_team_results`): an unknown
  code is rejected before any game is looked at.
  - Otherwise the games are scanned in order.
  - Each game of the team becomes a log line seen from that team's side: the
    date, the opponent (shown as "at X" when the team is listed second), the
    team's score, the opponent's score, and WIN, LOSS or TIE.
  - Running totals of wins, losses and ties give the overall record.
  - Modelled in `team_results.dfy` (module `TeamResults`).
- `games.dfy` (module `Games`) holds the shared data: a parsed game, the
  teams table, a game's outcome from one side, and a record.

Both computations are loops that update state in place. Each is a `method`
with a loop, proved equal to a pure specification function:

- `Tally` for the counter map;
- `Rows`, `SortDesc` and `Standings` for the rows and the ranking;
- `TeamLog`, `Overall` and `Results` for the team query.

Lemmas then prove the promised properties about those functions.

Several values are modelled rather than copied:

- **Win percent.** It is kept as the exact fraction
  `(2 * wins + ties) / (2 * games)`, or `0/1` for a team without games.
  Fractions are compared by cross-multiplication.
- **The sort.** Python's `sorted(..., reverse=True)` is modelled as a stable
  insertion sort on those fractions. It places each row after every row
  with a strictly higher percent.
- **The counter dictionary.** It becomes a `map<string, Record>` that the
  loop reassigns.
- **The teams dictionary.** It becomes a `TeamTable`: its codes in iteration
  order plus a code-to-name map.
- **Scores.** They are unbounded `int`s, as Python's `int()` produces them.

Games of a team against itself are modelled as the code behaves:

- the standings credit that team twice (`ApplyGameSelf`);
- the team log takes only the first branch.

The properties that need two different teams per game say so with
`NoSelfGames`.

## Model

| member | source | states |
|---|---|---|
| `Games.ClassifyMeaning` | Baseball.py:66 | A game's result for a side is WIN exactly when its score is higher, LOSS exactly when lower, TIE exactly when equal |
| `Games.ClassifyMirror` | Baseball.py:73 | The result seen from the second team, with the scores swapped, is always the opposite of the first team's (win and loss exchange, a tie stays a tie) |
| `Games.AddOne` | Baseball.py:67-69 | Adding one game with a result raises that result's counter by one, leaves the other two counters alone, and raises the games played by one |
| `SeasonStandings.CreditLookup` | Baseball.py:29-36 | Crediting one code with a result changes that code's record only |
| `SeasonStandings.ApplyGameEffect` | Baseball.py:28-36 | A game between two different teams adds both codes to the map and changes exactly their two records, each by one: the winner gets a win and the loser a loss, or both teams get a tie |
| `SeasonStandings.ApplyGameSelf` | Baseball.py:22-36 | A game whose two teams are the same code raises that code's games played by two |
| `SeasonStandings.CreditCommutes` | Baseball.py:31-33 | Crediting the second team's win before the first team's loss gives the same map as the other order |
| `SeasonStandings.LookupApplyGame` | Baseball.py:23-36 | After one game, a code's record is its previous record (empty if absent) plus the wins, losses and ties that game gives it on each side it plays |
| `SeasonStandings.TallyKeys` | Baseball.py:22-26 | After all games, the counter map has an entry for a code exactly when the code plays in at least one game |
| `SeasonStandings.TallyCounts` | Baseball.py:21-36 | After all games, every code's record equals the independent game-by-game count of its wins, losses and ties |
| `SeasonStandings.RecordCoversGames` | Baseball.py:22-36 | Without self-games, a code's wins plus losses plus ties equal the number of games it plays in, as either team |
| `SeasonStandings.AbsentTeamHasNoRecord` | Baseball.py:40 | A code that plays in no game reads as 0-0-0 |
| `SeasonStandings.TallyTotals` | Baseball.py:28-36 | Summed over all codes, total wins and total losses both equal the number of decisive games, and total ties are twice the number of tied games |
| `SeasonStandings.PercentMeaning` | Baseball.py:41-42 | The percent has a positive denominator and lies in [0, 1]; it is 0 without games, and otherwise equals (2 * wins + ties) / (2 * games) |
| `SeasonStandings.AtLeastTrans` | Baseball.py:45 | The order the sort uses on percents is transitive |
| `SeasonStandings.SortDesc` | Baseball.py:45 | The sorted rows are a permutation (same multiset) of the input rows |
| `SeasonStandings.InsertRanked` | Baseball.py:45 | Inserting a row into rows ranked by percent keeps them ranked |
| `SeasonStandings.SortRanked` | Baseball.py:45 | The sorted rows have non-increasing percents |
| `SeasonStandings.InsertStable` | Baseball.py:45 | Inserting a row keeps the order of the rows sharing any given percent, with the new row first among its equals |
| `SeasonStandings.SortStable` | Baseball.py:45 | For every percent, the rows with that percent appear in the sorted output in their input order |
| `SeasonStandings.SortCodes` | Baseball.py:45 | The codes of the sorted rows are a permutation of the codes of the input rows |
| `SeasonStandings.RankingRanked` | Baseball.py:38-45 | The standings are ordered by percent, highest first |
| `SeasonStandings.RankingStable` | Baseball.py:38-45 | Rows of equal percent appear in the standings in the teams table's order |
| `SeasonStandings.RankingOneRowPerTeam` | Baseball.py:38-45 | The standings have one row per table code: their codes are a permutation of the table's codes |
| `SeasonStandings.RankingRowsAreOwn` | Baseball.py:39-43 | Each row of the standings carries its own code's record and the percent of that record |
| `SeasonStandings.RankingRowOf` | Baseball.py:38-45 | With distinct table codes, each table code has exactly one row and any other code has none |
| `SeasonStandings.StandingsRowPerTeam` | Baseball.py:38-45 | For a teams table, each known code has exactly one row in the standings, and a code that only appears in games has none |
| `SeasonStandings.IdleTeamRow` | Baseball.py:40-42 | A table code that plays in no game gets the row 0-0-0 with a zero percent |
| `SeasonStandings.RecordGame` | Baseball.py:23-36 | One pass of the game loop turns the counter map into the specification's map after that game |
| `SeasonStandings.TallyGames` | Baseball.py:21-36 | The game loop builds exactly the counter map specified over all games |
| `SeasonStandings.BuildRows` | Baseball.py:38-43 | The row loop yields one row per table code, in table order, each with its record and percent |
| `SeasonStandings.CalculateStandings` | Baseball.py:20-45 | The result is the specified standings: ranked by percent, a permutation of the table's codes, and every row is its code's record after all games |
| `TeamResults.PlayedPositions` | Baseball.py:64-72 | The listed positions are exactly those of the games involving the team, in strictly increasing order |
| `TeamResults.TeamLogFollowsGames` | Baseball.py:64-78 | Log line k is the k-th game involving the team, seen from the team's side: the log keeps the games' order and skips no game of the team |
| `TeamResults.TeamLogLength` | Baseball.py:64-78 | The log has one line per game involving the team |
| `TeamResults.TeamLogSnoc` | Baseball.py:64-78 | One more game appends its line, if it involves the team, at the end of the log |
| `TeamResults.TeamLogAppend` | Baseball.py:64-78 | The log of two consecutive stretches of games is the first stretch's log followed by the second's |
| `TeamResults.EntryMirror` | Baseball.py:65-78 | Both teams' lines for a game have the same date, swapped scores and opposite results; only the second team's line shows its opponent with "at " |
| `TeamResults.TeamLogResults` | Baseball.py:66-73 | Every log line's result is the strict comparison of its own two scores |
| `TeamResults.OverallCounts` | Baseball.py:62-76 | The overall record counts exactly the WIN, LOSS and TIE lines of the log |
| `TeamResults.OverallCoversLog` | Baseball.py:62-76 | The overall record's games played equal the number of log lines |
| `TeamResults.AddCountsResult` | Baseball.py:67-69 | The three conditional increments add one game with the line's result to the totals |
| `TeamResults.OverallMatchesStandings` | Baseball.py:62-76 | Without self-games, a team's overall record equals its record in the standings' counter map |
| `TeamResults.LogGame` | Baseball.py:65-78 | One pass of the scan appends the game's line when it involves the team, from the team's side, and keeps the totals equal to the record of the log |
| `TeamResults.DisplayTeamResults` | Baseball.py:53-80 | An unknown code gives the invalid-code outcome exactly when it is not in the table; otherwise the result is the team's name, its log and its overall record, with one line per game of the team and totals covering every line |

## Left out

- Reading the teams and games files (Baseball.py:4-18) is file I/O and text parsing. The model takes the parsed table and games as inputs.
- `main` (Baseball.py:82-100) is an interactive console loop over standard input. It is not modelled.
- `display_standings` (Baseball.py:47-51) and the print calls of `display_team_results` (Baseball.py:56, 59-60, 71, 78, 80) are fixed-width text rendering. The model returns structured rows, log lines and records instead.
- The floating-point win percent (Baseball.py:42) and its three-decimal rendering are replaced by an exact fraction. Two float percents that round to the same value but differ as fractions are ordered as fractions, so ties caused by float rounding are not modelled.
- Duplicate codes in the teams file (the dictionary keeps one position and the last name, Baseball.py:7) are not modelled. `TeamTable.Valid` states that a dictionary's codes are distinct and match its name map. `RankingRowOf` and `StandingsRowPerTeam` assume that.
- `sorted` is a library call. It is modelled as a pure stable insertion sort producing a new sequence, so Python's sorting algorithm itself is not modelled, only its stable descending result.
- `SeasonStandings.CalculateStandings` takes the table's codes as given. Its one-row-per-code guarantee for a table with distinct codes is `SeasonStandings.StandingsRowPerTeam`.
- `SeasonStandings.RecordCoversGames`, `TeamResults.EntryMirror` and `TeamResults.OverallMatchesStandings` hold only without self-games. With a self-game the standings count the game twice while the log shows it once, as the code is written.
