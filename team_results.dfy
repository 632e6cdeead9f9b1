/** The team results extractor: one team's games in file order, each seen from
    that team's side, with the team's overall record. */
module TeamResults {
  import opened Games
  import SeasonStandings

  /** One line of a team's log: the date, the opponent ("at X" when the team
      was listed second), the team's score, the opponent's score and the
      result for the team. */
  datatype Entry = Entry(date: string, opponent: string, us: int, them: int, result: Outcome)

  /** A team's name, its log and its overall record. */
  datatype Report = Report(name: string, entries: seq<Entry>, overall: Record)

  /** What a query for a team code yields. */
  datatype TeamResult = InvalidTeamCode | Found(report: Report)

  /** The log line of a game in which `code` plays, seen from `code`: when the
      team is listed first its opponent is the second team and its score is the
      first; otherwise the opponent is shown as "at" the first team and the
      scores are swapped. */
  function EntryFor(g: Game, code: string): Entry
    requires Involves(g, code)
  {
    if g.team1 == code then Entry(g.date, g.team2, g.score1, g.score2, Classify(g.score1, g.score2))
    else Entry(g.date, "at " + g.team1, g.score2, g.score1, Classify(g.score2, g.score1))
  }

  /** The log lines one game contributes to the log of `code`. */
  function GameEntries(g: Game, code: string): seq<Entry> {
    if Involves(g, code) then [EntryFor(g, code)] else []
  }

  /** The log of `code` over the games, in their order. */
  function TeamLog(games: seq<Game>, code: string): seq<Entry> {
    if games == [] then []
    else TeamLog(games[..|games| - 1], code) + GameEntries(games[|games| - 1], code)
  }

  /** The running win/loss/tie totals over log lines, in order. */
  function Overall(entries: seq<Entry>): Record {
    if entries == [] then NoGames
    else Overall(entries[..|entries| - 1]).Add(entries[|entries| - 1].result)
  }

  /** The answer to a query: an unknown code is rejected; a known one gets its
      name, its log and its overall record. */
  function Results(games: seq<Game>, teams: TeamTable, code: string): TeamResult {
    if code !in teams.names then InvalidTeamCode
    else
      var entries := TeamLog(games, code);
      Found(Report(teams.names[code], entries, Overall(entries)))
  }

  // ---------------------------------------------------------------------------
  // The log keeps the games' order and has one line per game of the team
  // ---------------------------------------------------------------------------

  /** The positions of the games in which `code` plays, in increasing order. */
  function Played(games: seq<Game>, code: string): seq<nat> {
    if games == [] then []
    else Played(games[..|games| - 1], code) + (if Involves(games[|games| - 1], code) then [|games| - 1] else [])
  }

  /** The positions listed are exactly those of the games that involve the
      team, each once, in increasing order. */
  lemma {:induction false} PlayedPositions(games: seq<Game>, code: string)
    ensures forall k :: 0 <= k < |Played(games, code)| ==>
      Played(games, code)[k] < |games| && Involves(games[Played(games, code)[k]], code)
    ensures forall k, l :: 0 <= k < l < |Played(games, code)| ==> Played(games, code)[k] < Played(games, code)[l]
    ensures forall i :: 0 <= i < |games| && Involves(games[i], code) ==> i in Played(games, code)
  {
    if games != [] {
      var init, last := games[..|games| - 1], |games| - 1;
      PlayedPositions(init, code);
      var p := Played(init, code);
      var extra := if Involves(games[last], code) then [last] else [];
      var q := p + extra;
      assert Played(games, code) == q;
      forall k | 0 <= k < |q| ensures q[k] < |games| && Involves(games[q[k]], code) {
        if k < |p| {
          assert q[k] == p[k] && init[p[k]] == games[p[k]];
        }
      }
      forall k, l | 0 <= k < l < |q| ensures q[k] < q[l] {
        if l < |p| {
          assert q[k] == p[k] && q[l] == p[l];
        }
      }
      forall i | 0 <= i < |games| && Involves(games[i], code) ensures i in q {
        if i < last {
          assert init[i] == games[i];
          assert i in p;
        }
      }
    }
  }

  /** Entry k of the log is the line of the k-th game in which the team plays,
      seen from the team's side. */
  lemma {:induction false} TeamLogFollowsGames(games: seq<Game>, code: string)
    ensures |TeamLog(games, code)| == |Played(games, code)|
    ensures forall k :: 0 <= k < |Played(games, code)| ==>
      Played(games, code)[k] < |games| && Involves(games[Played(games, code)[k]], code) &&
      TeamLog(games, code)[k] == EntryFor(games[Played(games, code)[k]], code)
  {
    if games != [] {
      var init := games[..|games| - 1];
      TeamLogFollowsGames(init, code);
      var p, q := Played(init, code), Played(games, code);
      var log := TeamLog(games, code);
      forall k | 0 <= k < |q|
        ensures q[k] < |games| && Involves(games[q[k]], code) && log[k] == EntryFor(games[q[k]], code)
      {
        if k < |p| {
          assert q[k] == p[k] && log[k] == TeamLog(init, code)[k];
          assert init[p[k]] == games[p[k]];
        }
      }
    }
  }

  /** The log has one line per game in which the team plays. */
  lemma {:induction false} TeamLogLength(games: seq<Game>, code: string)
    ensures |TeamLog(games, code)| == Involving(games, code)
  {
    if games != [] {
      TeamLogLength(games[..|games| - 1], code);
    }
  }

  /** One more game adds that game's line, if any, at the end of the log. */
  lemma TeamLogSnoc(games: seq<Game>, g: Game, code: string)
    ensures TeamLog(games + [g], code) == TeamLog(games, code) + GameEntries(g, code)
  {
    assert (games + [g])[..|games|] == games;
  }

  /** The log of consecutive stretches of games is the logs of the stretches,
      one after the other. */
  lemma {:induction false} TeamLogAppend(a: seq<Game>, b: seq<Game>, code: string)
    ensures TeamLog(a + b, code) == TeamLog(a, code) + TeamLog(b, code)
    decreases |b|
  {
    if b == [] {
      assert a + b == a;
    } else {
      var init, g := b[..|b| - 1], b[|b| - 1];
      TeamLogAppend(a, init, code);
      SplitLast(a, b);
      TeamLogSnoc(a + init, g, code);
      TeamLogSnoc(init, g, code);
      ConcatAssoc(TeamLog(a, code), TeamLog(init, code), GameEntries(g, code));
    }
  }

  lemma SplitLast(a: seq<Game>, b: seq<Game>)
    requires b != []
    ensures a + b == (a + b[..|b| - 1]) + [b[|b| - 1]]
    ensures b == b[..|b| - 1] + [b[|b| - 1]]
  {
  }

  lemma ConcatAssoc(x: seq<Entry>, y: seq<Entry>, z: seq<Entry>)
    ensures x + y + z == x + (y + z)
  {
  }

  /** The two teams of a game see the same date, swapped scores and opposite
      results; only the first team's opponent is shown without "at". */
  lemma EntryMirror(g: Game)
    requires g.team1 != g.team2
    ensures var home, away := EntryFor(g, g.team1), EntryFor(g, g.team2);
      && home.date == away.date
      && home.us == away.them && home.them == away.us
      && home.result == Opposite(away.result)
      && home.opponent == g.team2 && away.opponent == "at " + g.team1
  {
    ClassifyMirror(g.score2, g.score1);
  }

  /** Every line's result is the strict comparison of its two scores. */
  lemma {:induction false} TeamLogResults(games: seq<Game>, code: string)
    ensures forall k :: 0 <= k < |TeamLog(games, code)| ==>
      TeamLog(games, code)[k].result == Classify(TeamLog(games, code)[k].us, TeamLog(games, code)[k].them)
  {
    if games != [] {
      TeamLogResults(games[..|games| - 1], code);
    }
  }

  // ---------------------------------------------------------------------------
  // The overall record
  // ---------------------------------------------------------------------------

  /** The number of log lines whose result is `o`. */
  function CountResults(entries: seq<Entry>, o: Outcome): nat {
    if entries == [] then 0
    else (if entries[0].result == o then 1 else 0) + CountResults(entries[1..], o)
  }

  lemma {:induction false} CountResultsSnoc(entries: seq<Entry>, e: Entry, o: Outcome)
    ensures CountResults(entries + [e], o) == CountResults(entries, o) + (if e.result == o then 1 else 0)
  {
    if entries != [] {
      assert (entries + [e])[1..] == entries[1..] + [e];
      CountResultsSnoc(entries[1..], e, o);
    }
  }

  /** The overall record counts the WIN, LOSS and TIE lines of the log. */
  lemma {:induction false} OverallCounts(entries: seq<Entry>)
    ensures Overall(entries) ==
      Record(CountResults(entries, Win), CountResults(entries, Loss), CountResults(entries, Tie))
  {
    if entries != [] {
      var init, e := entries[..|entries| - 1], entries[|entries| - 1];
      OverallCounts(init);
      assert entries == init + [e];
      AddCountsResult(Overall(init), e.result);
      CountResultsSnoc(init, e, Win);
      CountResultsSnoc(init, e, Loss);
      CountResultsSnoc(init, e, Tie);
    }
  }

  /** The overall record covers every line of the log once. */
  lemma {:induction false} OverallCoversLog(entries: seq<Entry>)
    ensures Overall(entries).Games() == |entries|
  {
    if entries != [] {
      OverallCoversLog(entries[..|entries| - 1]);
      AddOne(Overall(entries[..|entries| - 1]), entries[|entries| - 1].result);
    }
  }

  /** Raising the counter that matches a result is adding one game of it. */
  lemma AddCountsResult(r: Record, o: Outcome)
    ensures r.Add(o) == Record(r.wins + (if o == Win then 1 else 0),
                               r.losses + (if o == Loss then 1 else 0),
                               r.ties + (if o == Tie then 1 else 0))
  {
  }

  lemma OverallSnoc(entries: seq<Entry>, more: seq<Entry>)
    requires |more| <= 1
    ensures Overall(entries + more) == if more == [] then Overall(entries) else Overall(entries).Add(more[0].result)
  {
    if more == [] {
      assert entries + more == entries;
    } else {
      assert (entries + more)[..|entries|] == entries;
    }
  }

  /** Without self-games, a team's overall record in its log is the record the
      standings give it. */
  lemma {:induction false} OverallMatchesStandings(games: seq<Game>, code: string)
    requires NoSelfGames(games)
    ensures Overall(TeamLog(games, code)) == SeasonStandings.Lookup(SeasonStandings.Tally(games), code)
  {
    if games != [] {
      var init, g := games[..|games| - 1], games[|games| - 1];
      assert NoSelfGames(init) by {
        forall i | 0 <= i < |init| ensures init[i].team1 != init[i].team2 {
          assert init[i] == games[i];
        }
      }
      assert g.team1 != g.team2;
      OverallMatchesStandings(init, code);
      OverallSnoc(TeamLog(init, code), GameEntries(g, code));
      SeasonStandings.LookupApplyGame(SeasonStandings.Tally(init), g, code);
    }
  }

  // ---------------------------------------------------------------------------
  // The extractor, as the program runs it
  // ---------------------------------------------------------------------------

  /** One pass of the scan: when the game involves the team, its line is
      appended from the team's side and the counter of its result is raised;
      any other game leaves the log and the totals as they were. */
  method LogGame(g: Game, code: string, entries: seq<Entry>, wins: nat, losses: nat, ties: nat)
    returns (entries': seq<Entry>, wins': nat, losses': nat, ties': nat)
    requires Record(wins, losses, ties) == Overall(entries)
    ensures entries' == entries + GameEntries(g, code)
    ensures Record(wins', losses', ties') == Overall(entries')
  {
    entries', wins', losses', ties' := entries, wins, losses, ties;
    if g.team1 == code {
      var result := Classify(g.score1, g.score2);
      wins' := wins' + if result == Win then 1 else 0;
      losses' := losses' + if result == Loss then 1 else 0;
      ties' := ties' + if result == Tie then 1 else 0;
      entries' := entries' + [Entry(g.date, g.team2, g.score1, g.score2, result)];
    } else if g.team2 == code {
      var result := Classify(g.score2, g.score1);
      wins' := wins' + if result == Win then 1 else 0;
      losses' := losses' + if result == Loss then 1 else 0;
      ties' := ties' + if result == Tie then 1 else 0;
      entries' := entries' + [Entry(g.date, "at " + g.team1, g.score2, g.score1, result)];
    }
    if Involves(g, code) {
      AddCountsResult(Record(wins, losses, ties), entries'[|entries'| - 1].result);
    }
    OverallSnoc(entries, GameEntries(g, code));
  }

  /** Rejects an unknown code before looking at any game; otherwise scans the
      games in order, logging each game of the team from its side and keeping
      running totals of wins, losses and ties. */
  method DisplayTeamResults(games: seq<Game>, teams: TeamTable, code: string) returns (r: TeamResult)
    ensures r == Results(games, teams, code)
    ensures r == InvalidTeamCode <==> code !in teams.names
    ensures r.Found? ==>
      && |r.report.entries| == Involving(games, code)
      && r.report.overall.Games() == |r.report.entries|
  {
    if code !in teams.names {
      return InvalidTeamCode;
    }
    var name := teams.names[code];
    var wins: nat, losses: nat, ties: nat := 0, 0, 0;
    var entries: seq<Entry> := [];
    var i := 0;
    while i < |games|
      invariant 0 <= i <= |games|
      invariant entries == TeamLog(games[..i], code)
      invariant Record(wins, losses, ties) == Overall(entries)
    {
      entries, wins, losses, ties := LogGame(games[i], code, entries, wins, losses, ties);
      assert games[..i + 1][..i] == games[..i];
      i := i + 1;
    }
    assert games[..i] == games;
    r := Found(Report(name, entries, Record(wins, losses, ties)));
    TeamLogLength(games, code);
    OverallCoversLog(entries);
  }
}
