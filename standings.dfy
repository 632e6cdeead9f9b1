/** The standings calculator: fold the games into a record per team code, give
    each known team a row with its exact win percent, and rank the rows by that
    percent, highest first, keeping the teams' order among equal percents. */
module SeasonStandings {
  import opened Games

  // ---------------------------------------------------------------------------
  // The counter map
  // ---------------------------------------------------------------------------

  /** The record kept for `code`, or an empty one when the code has none. */
  function Lookup(stats: map<string, Record>, code: string): Record {
    if code in stats then stats[code] else NoGames
  }

  /** `stats` after `code` has been credited with one more game ending in `o`. */
  function Credit(stats: map<string, Record>, code: string, o: Outcome): map<string, Record> {
    stats[code := Lookup(stats, code).Add(o)]
  }

  /** Crediting `code` changes its record only. */
  lemma CreditLookup(stats: map<string, Record>, code: string, o: Outcome, c: string)
    ensures Lookup(Credit(stats, code, o), c) ==
      if c == code then Lookup(stats, c).Add(o) else Lookup(stats, c)
  {
  }

  /** The counter map after one game: each team gets the result it saw. */
  function ApplyGame(stats: map<string, Record>, g: Game): map<string, Record> {
    Credit(Credit(stats, g.team1, Classify(g.score1, g.score2)), g.team2, Classify(g.score2, g.score1))
  }

  /** A game between two different teams changes exactly two counters, each by
      one: the winner's wins and the loser's losses, or both teams' ties. */
  lemma ApplyGameEffect(stats: map<string, Record>, g: Game)
    requires g.team1 != g.team2
    ensures ApplyGame(stats, g).Keys == stats.Keys + {g.team1, g.team2}
    ensures forall c :: c != g.team1 && c != g.team2 ==> Lookup(ApplyGame(stats, g), c) == Lookup(stats, c)
    ensures var r, a, b := ApplyGame(stats, g), Lookup(stats, g.team1), Lookup(stats, g.team2);
      && (g.score1 > g.score2 ==> r[g.team1] == a.(wins := a.wins + 1) && r[g.team2] == b.(losses := b.losses + 1))
      && (g.score1 < g.score2 ==> r[g.team1] == a.(losses := a.losses + 1) && r[g.team2] == b.(wins := b.wins + 1))
      && (g.score1 == g.score2 ==> r[g.team1] == a.(ties := a.ties + 1) && r[g.team2] == b.(ties := b.ties + 1))
  {
    var o1, o2 := Classify(g.score1, g.score2), Classify(g.score2, g.score1);
    var m1 := Credit(stats, g.team1, o1);
    CreditLookup(stats, g.team1, o1, g.team2);
    CreditLookup(m1, g.team2, o2, g.team1);
    CreditLookup(m1, g.team2, o2, g.team2);
    assert Lookup(ApplyGame(stats, g), g.team1) == Lookup(stats, g.team1).Add(o1);
    assert Lookup(ApplyGame(stats, g), g.team2) == Lookup(stats, g.team2).Add(o2);
  }

  /** A game against itself credits its one team twice, as the program's two
      separate updates do. */
  lemma ApplyGameSelf(stats: map<string, Record>, g: Game)
    requires g.team1 == g.team2
    ensures Lookup(ApplyGame(stats, g), g.team1).Games() == Lookup(stats, g.team1).Games() + 2
  {
  }

  /** The order in which two credits are made does not matter. */
  lemma CreditCommutes(m: map<string, Record>, a: string, o: Outcome, b: string, p: Outcome)
    ensures Credit(Credit(m, a, o), b, p) == Credit(Credit(m, b, p), a, o)
  {
    if a == b {
      assert Lookup(m, a).Add(o).Add(p) == Lookup(m, a).Add(p).Add(o);
    }
  }

  /** Adding empty entries to a counter map does not change what two credits
      make of it. */
  lemma CreditTwiceAgrees(before: map<string, Record>, mid: map<string, Record>, a: string, o: Outcome, b: string, p: Outcome)
    requires mid.Keys == before.Keys + {a, b}
    requires forall c :: Lookup(mid, c) == Lookup(before, c)
    ensures Credit(Credit(mid, a, o), b, p) == Credit(Credit(before, a, o), b, p)
  {
    var x, y := Credit(Credit(mid, a, o), b, p), Credit(Credit(before, a, o), b, p);
    assert x.Keys == y.Keys;
    forall c | c in x ensures x[c] == y[c] {
      CreditLookup(mid, a, o, c);
      CreditLookup(before, a, o, c);
      CreditLookup(Credit(mid, a, o), b, p, c);
      CreditLookup(Credit(before, a, o), b, p, c);
    }
  }

  /** The counter map after all the games, in order. */
  function Tally(games: seq<Game>): map<string, Record> {
    if games == [] then map[]
    else ApplyGame(Tally(games[..|games| - 1]), games[|games| - 1])
  }

  // ---------------------------------------------------------------------------
  // An independent reference: counting, game by game
  // ---------------------------------------------------------------------------

  /** How many times `g` credits `code` with `o`: once per side `code` plays. */
  function Share(g: Game, code: string, o: Outcome): nat {
    (if g.team1 == code && Classify(g.score1, g.score2) == o then 1 else 0) +
    (if g.team2 == code && Classify(g.score2, g.score1) == o then 1 else 0)
  }

  /** One game adds its shares to the record of `code`. */
  lemma LookupApplyGame(stats: map<string, Record>, g: Game, code: string)
    ensures var a := Lookup(stats, code);
      Lookup(ApplyGame(stats, g), code) ==
        Record(a.wins + Share(g, code, Win), a.losses + Share(g, code, Loss), a.ties + Share(g, code, Tie))
  {
    var o1, o2 := Classify(g.score1, g.score2), Classify(g.score2, g.score1);
    var m1 := Credit(stats, g.team1, o1);
    CreditLookup(stats, g.team1, o1, code);
    CreditLookup(m1, g.team2, o2, code);
  }

  /** How many of the games ended in `o` for `code`. */
  function Count(games: seq<Game>, code: string, o: Outcome): nat {
    if games == [] then 0
    else Count(games[..|games| - 1], code, o) + Share(games[|games| - 1], code, o)
  }

  /** The counter map has an entry exactly for the codes that play in some
      game. */
  lemma {:induction false} TallyKeys(games: seq<Game>, code: string)
    ensures code in Tally(games) <==> Involving(games, code) > 0
  {
    if games != [] {
      var init := games[..|games| - 1];
      TallyKeys(init, code);
    }
  }

  /** The counter map holds, for each code, exactly the number of wins, losses
      and ties counted game by game. */
  lemma {:induction false} TallyCounts(games: seq<Game>, code: string)
    ensures Lookup(Tally(games), code) ==
      Record(Count(games, code, Win), Count(games, code, Loss), Count(games, code, Tie))
  {
    if games != [] {
      var init := games[..|games| - 1];
      TallyCounts(init, code);
      LookupApplyGame(Tally(init), games[|games| - 1], code);
    }
  }

  /** Without self-games, a team's wins, losses and ties add up to the number of
      games it played. */
  lemma {:induction false} RecordCoversGames(games: seq<Game>, code: string)
    requires NoSelfGames(games)
    ensures Lookup(Tally(games), code).Games() == Involving(games, code)
  {
    if games != [] {
      var init, g := games[..|games| - 1], games[|games| - 1];
      assert NoSelfGames(init) by {
        forall i | 0 <= i < |init| ensures init[i].team1 != init[i].team2 {
          assert init[i] == games[i];
        }
      }
      RecordCoversGames(init, code);
      TallyCounts(games, code);
      TallyCounts(init, code);
      assert g == games[|games| - 1];
    }
  }

  /** A code that plays in no game has an all-zero record. */
  lemma AbsentTeamHasNoRecord(games: seq<Game>, code: string)
    requires Involving(games, code) == 0
    ensures Lookup(Tally(games), code) == NoGames
  {
    TallyKeys(games, code);
  }

  // ---------------------------------------------------------------------------
  // Sums over the counter map
  // ---------------------------------------------------------------------------

  /** Some key of a non-empty counter map. */
  ghost function Pick(stats: map<string, Record>): (c: string)
    requires stats != map[]
    ensures c in stats
  {
    var c :| c in stats; c
  }

  /** The number of games ending in `o`, summed over every code in the map. */
  ghost function Total(stats: map<string, Record>, o: Outcome): nat
    decreases |stats|
  {
    if stats == map[] then 0
    else
      var c := Pick(stats);
      assert (stats - {c}).Keys == stats.Keys - {c};
      stats[c].Of(o) + Total(stats - {c}, o)
  }

  /** The sum can be split at any key. */
  lemma {:induction false} TotalSplit(stats: map<string, Record>, c: string, o: Outcome)
    requires c in stats
    ensures Total(stats, o) == stats[c].Of(o) + Total(stats - {c}, o)
    decreases |stats|
  {
    var d := Pick(stats);
    if d != c {
      var rest := stats - {d};
      assert rest.Keys == stats.Keys - {d};
      assert (stats - {c}).Keys == stats.Keys - {c};
      TotalSplit(rest, c, o);
      TotalSplit(stats - {c}, d, o);
      assert rest - {c} == (stats - {c}) - {d};
    }
  }

  /** Crediting one code with one game ending in `o` raises the sum for `o` by
      one and leaves the other sums alone. */
  lemma TotalCredit(stats: map<string, Record>, c: string, o: Outcome, o': Outcome)
    ensures Total(Credit(stats, c, o), o') == Total(stats, o') + (if o == o' then 1 else 0)
  {
    var r := Credit(stats, c, o);
    TotalSplit(r, c, o');
    if c in stats {
      TotalSplit(stats, c, o');
      assert r - {c} == stats - {c};
    } else {
      assert r - {c} == stats;
    }
  }

  /** The number of games that ended decisively. */
  function Decisive(games: seq<Game>): nat {
    if games == [] then 0
    else Decisive(games[..|games| - 1]) + (if games[|games| - 1].score1 != games[|games| - 1].score2 then 1 else 0)
  }

  /** The number of tied games. */
  function Tied(games: seq<Game>): nat {
    if games == [] then 0
    else Tied(games[..|games| - 1]) + (if games[|games| - 1].score1 == games[|games| - 1].score2 then 1 else 0)
  }

  /** Over the whole counter map, every decisive game adds one win and one loss
      and every tied game adds two ties: total wins equal total losses, and the
      total of ties is twice the number of tied games. */
  lemma {:induction false} TallyTotals(games: seq<Game>)
    ensures Total(Tally(games), Win) == Decisive(games)
    ensures Total(Tally(games), Loss) == Decisive(games)
    ensures Total(Tally(games), Tie) == 2 * Tied(games)
  {
    if games != [] {
      var init, g := games[..|games| - 1], games[|games| - 1];
      TallyTotals(init);
      var o1, o2 := Classify(g.score1, g.score2), Classify(g.score2, g.score1);
      var m := Tally(init);
      forall o | true
        ensures Total(Tally(games), o) == Total(m, o) + (if o1 == o then 1 else 0) + (if o2 == o then 1 else 0)
      {
        TotalCredit(m, g.team1, o1, o);
        TotalCredit(Credit(m, g.team1, o1), g.team2, o2, o);
      }
    }
  }

  // ---------------------------------------------------------------------------
  // The win percent, as an exact fraction
  // ---------------------------------------------------------------------------

  /** A fraction num/den; every percent the calculator builds has den > 0. */
  datatype Percent = Percent(num: nat, den: nat)

  /** The win percent of a record: wins plus half the ties, over the games
      played, or zero for a team that has not played. Kept as the exact
      fraction (2 * wins + ties) / (2 * games). */
  function PercentOf(r: Record): Percent {
    var total := r.wins + r.losses + r.ties;
    if total > 0 then Percent(2 * r.wins + r.ties, 2 * total) else Percent(0, 1)
  }

  /** The win percent lies between 0 and 1; it is 0 for a team that has not
      played and otherwise equals (wins + ties / 2) / games. */
  lemma PercentMeaning(r: Record)
    ensures PercentOf(r).den > 0 && PercentOf(r).num <= PercentOf(r).den
    ensures r.Games() == 0 ==> PercentOf(r).num == 0
    ensures r.Games() > 0 ==>
      PercentOf(r).num * (2 * r.Games()) == PercentOf(r).den * (2 * r.wins + r.ties)
  {
  }

  /** a >= b, compared by cross-multiplication. */
  predicate AtLeast(a: Percent, b: Percent) {
    a.num * b.den >= b.num * a.den
  }

  /** a == b as fractions. */
  predicate Same(a: Percent, b: Percent) {
    a.num * b.den == b.num * a.den
  }

  lemma MulMono(x: nat, y: nat, k: nat)
    requires x <= y
    ensures x * k <= y * k
  {
  }

  lemma MulCancel(x: nat, y: nat, k: nat)
    requires k > 0 && x * k <= y * k
    ensures x <= y
  {
    if x > y {
      MulMono(y + 1, x, k);
    }
  }

  /** The order on fractions is transitive. */
  lemma AtLeastTrans(a: Percent, b: Percent, c: Percent)
    requires a.den > 0 && b.den > 0 && c.den > 0
    requires AtLeast(a, b) && AtLeast(b, c)
    ensures AtLeast(a, c)
  {
    MulMono(b.num * a.den, a.num * b.den, c.den);
    MulMono(c.num * b.den, b.num * c.den, a.den);
    assert (c.num * a.den) * b.den == (c.num * b.den) * a.den;
    assert (a.num * c.den) * b.den == (a.num * b.den) * c.den;
    assert (b.num * a.den) * c.den == (b.num * c.den) * a.den;
    MulCancel(c.num * a.den, a.num * c.den, b.den);
  }

  /** Equality of fractions is transitive too. */
  lemma SameTrans(a: Percent, b: Percent, c: Percent)
    requires a.den > 0 && b.den > 0 && c.den > 0
    requires Same(a, b) && Same(b, c)
    ensures Same(a, c)
  {
    AtLeastTrans(a, b, c);
    AtLeastTrans(c, b, a);
  }

  // ---------------------------------------------------------------------------
  // Rows and the ranking
  // ---------------------------------------------------------------------------

  /** One line of the standings. */
  datatype Row = Row(code: string, wins: nat, losses: nat, ties: nat, percent: Percent)

  /** The row of `code` given its record. */
  function MakeRow(code: string, r: Record): Row {
    Row(code, r.wins, r.losses, r.ties, PercentOf(r))
  }

  /** The row of `code` given the counter map: an all-zero record when the
      map has no entry for it. */
  function RowFor(code: string, stats: map<string, Record>): Row {
    MakeRow(code, Lookup(stats, code))
  }

  /** One row per team code, in the teams' order, before ranking. */
  function Rows(codes: seq<string>, stats: map<string, Record>): (rows: seq<Row>)
    ensures |rows| == |codes|
    ensures forall i :: 0 <= i < |codes| ==> rows[i] == RowFor(codes[i], stats)
  {
    seq(|codes|, i requires 0 <= i < |codes| => RowFor(codes[i], stats))
  }

  /** Every row has a percent with a positive denominator. */
  predicate Proper(rows: seq<Row>) {
    forall i :: 0 <= i < |rows| ==> rows[i].percent.den > 0
  }

  /** Percents never increase from one row to a later one. */
  predicate Ranked(rows: seq<Row>) {
    forall i, j :: 0 <= i < j < |rows| ==> AtLeast(rows[i].percent, rows[j].percent)
  }

  /** Places `x` before the first row whose percent it reaches, that is after
      every row with a strictly higher percent. */
  function Insert(x: Row, rows: seq<Row>): (r: seq<Row>)
    ensures multiset(r) == multiset(rows) + multiset{x}
  {
    if rows == [] || AtLeast(x.percent, rows[0].percent) then [x] + rows
    else
      assert rows == [rows[0]] + rows[1..];
      [rows[0]] + Insert(x, rows[1..])
  }

  /** Stable insertion sort by percent, highest first. Each row goes in front of
      the rows after it in the input that have the same percent, so equal
      percents keep their input order. */
  function SortDesc(rows: seq<Row>): (r: seq<Row>)
    ensures multiset(r) == multiset(rows)
  {
    if rows == [] then []
    else
      assert rows == [rows[0]] + rows[1..];
      Insert(rows[0], SortDesc(rows[1..]))
  }

  /** The teams' rows for a counter map, ranked by percent. */
  function Ranking(codes: seq<string>, stats: map<string, Record>): seq<Row> {
    SortDesc(Rows(codes, stats))
  }

  /** The standings after the games. */
  function Standings(codes: seq<string>, games: seq<Game>): seq<Row> {
    Ranking(codes, Tally(games))
  }

  lemma ProperMultiset(a: seq<Row>, b: seq<Row>)
    requires multiset(a) == multiset(b) && Proper(b)
    ensures Proper(a)
  {
    forall i | 0 <= i < |a| ensures a[i].percent.den > 0 {
      assert a[i] in multiset(b);
      var j :| 0 <= j < |b| && b[j] == a[i];
    }
  }

  /** A row placed in front of a ranked sequence keeps it ranked when its
      percent reaches every percent there. */
  lemma ConsRanked(h: Row, t: seq<Row>)
    requires Ranked(t)
    requires forall j :: 0 <= j < |t| ==> AtLeast(h.percent, t[j].percent)
    ensures Ranked([h] + t)
  {
    var r := [h] + t;
    forall i, j | 0 <= i < j < |r| ensures AtLeast(r[i].percent, r[j].percent) {
      assert r[j] == t[j - 1];
      if i > 0 {
        assert r[i] == t[i - 1];
      }
    }
  }

  lemma TailRanked(rows: seq<Row>)
    requires rows != [] && Ranked(rows)
    ensures Ranked(rows[1..])
  {
    var tail := rows[1..];
    forall i, j | 0 <= i < j < |tail| ensures AtLeast(tail[i].percent, tail[j].percent) {
      assert tail[i] == rows[i + 1] && tail[j] == rows[j + 1];
    }
  }

  /** Inserting into a ranked sequence keeps it ranked. */
  lemma {:induction false} InsertRanked(x: Row, rows: seq<Row>)
    requires Proper(rows) && x.percent.den > 0 && Ranked(rows)
    ensures Ranked(Insert(x, rows))
  {
    if rows == [] {
    } else if AtLeast(x.percent, rows[0].percent) {
      forall j | 0 <= j < |rows| ensures AtLeast(x.percent, rows[j].percent) {
        if j > 0 {
          AtLeastTrans(x.percent, rows[0].percent, rows[j].percent);
        }
      }
      ConsRanked(x, rows);
    } else {
      var tail := rows[1..];
      assert Proper(tail) by {
        forall i | 0 <= i < |tail| ensures tail[i].percent.den > 0 {
          assert tail[i] == rows[i + 1];
        }
      }
      TailRanked(rows);
      InsertRanked(x, tail);
      var t := Insert(x, tail);
      forall j | 0 <= j < |t| ensures AtLeast(rows[0].percent, t[j].percent) {
        assert t[j] in multiset(t);
        if t[j] != x {
          assert t[j] in multiset(tail);
          var k :| 0 <= k < |tail| && tail[k] == t[j];
          assert rows[k + 1] == t[j];
        }
      }
      ConsRanked(rows[0], t);
    }
  }

  /** The sort ranks its rows. */
  lemma {:induction false} SortRanked(rows: seq<Row>)
    requires Proper(rows)
    ensures Ranked(SortDesc(rows))
  {
    if rows != [] {
      var tail := rows[1..];
      assert Proper(tail) by {
        forall i | 0 <= i < |tail| ensures tail[i].percent.den > 0 {
          assert tail[i] == rows[i + 1];
        }
      }
      SortRanked(tail);
      ProperMultiset(SortDesc(tail), tail);
      InsertRanked(rows[0], SortDesc(tail));
    }
  }

  /** The rows whose percent equals `p`, in their order. */
  function WithPercent(rows: seq<Row>, p: Percent): seq<Row> {
    if rows == [] then []
    else (if Same(rows[0].percent, p) then [rows[0]] else []) + WithPercent(rows[1..], p)
  }

  lemma {:induction false} InsertStable(x: Row, rows: seq<Row>, p: Percent)
    requires Proper(rows) && x.percent.den > 0 && p.den > 0
    ensures WithPercent(Insert(x, rows), p) ==
      (if Same(x.percent, p) then [x] else []) + WithPercent(rows, p)
  {
    if rows == [] || AtLeast(x.percent, rows[0].percent) {
      assert ([x] + rows)[1..] == rows;
    } else {
      var tail := rows[1..];
      assert Proper(tail) by {
        forall i | 0 <= i < |tail| ensures tail[i].percent.den > 0 {
          assert tail[i] == rows[i + 1];
        }
      }
      InsertStable(x, tail, p);
      assert ([rows[0]] + Insert(x, tail))[1..] == Insert(x, tail);
      if Same(x.percent, p) && Same(rows[0].percent, p) {
        SameTrans(rows[0].percent, p, x.percent);
        assert false;
      }
    }
  }

  /** The sort is stable: among rows of equal percent, the output keeps the
      input order. */
  lemma {:induction false} SortStable(rows: seq<Row>, p: Percent)
    requires Proper(rows) && p.den > 0
    ensures WithPercent(SortDesc(rows), p) == WithPercent(rows, p)
  {
    if rows != [] {
      var tail := rows[1..];
      assert Proper(tail) by {
        forall i | 0 <= i < |tail| ensures tail[i].percent.den > 0 {
          assert tail[i] == rows[i + 1];
        }
      }
      SortStable(tail, p);
      ProperMultiset(SortDesc(tail), tail);
      InsertStable(rows[0], SortDesc(tail), p);
    }
  }

  /** The codes of the rows, in order. */
  function Codes(rows: seq<Row>): (cs: seq<string>)
    ensures |cs| == |rows|
    ensures forall i :: 0 <= i < |rows| ==> cs[i] == rows[i].code
  {
    if rows == [] then [] else [rows[0].code] + Codes(rows[1..])
  }

  lemma {:induction false} InsertCodes(x: Row, rows: seq<Row>)
    ensures multiset(Codes(Insert(x, rows))) == multiset(Codes(rows)) + multiset{x.code}
  {
    if rows == [] || AtLeast(x.percent, rows[0].percent) {
      assert Codes([x] + rows) == [x.code] + Codes(rows);
    } else {
      InsertCodes(x, rows[1..]);
      assert Codes([rows[0]] + Insert(x, rows[1..])) == [rows[0].code] + Codes(Insert(x, rows[1..]));
      assert Codes(rows) == [rows[0].code] + Codes(rows[1..]);
    }
  }

  /** The sort permutes the codes of its rows. */
  lemma {:induction false} SortCodes(rows: seq<Row>)
    ensures multiset(Codes(SortDesc(rows))) == multiset(Codes(rows))
  {
    if rows != [] {
      SortCodes(rows[1..]);
      InsertCodes(rows[0], SortDesc(rows[1..]));
      assert Codes(rows) == [rows[0].code] + Codes(rows[1..]);
    }
  }

  lemma RowsProper(codes: seq<string>, stats: map<string, Record>)
    ensures Proper(Rows(codes, stats))
  {
  }

  /** The standings are ranked by percent, highest first. */
  lemma RankingRanked(codes: seq<string>, stats: map<string, Record>)
    ensures Ranked(Ranking(codes, stats))
  {
    RowsProper(codes, stats);
    SortRanked(Rows(codes, stats));
  }

  /** Rows of equal percent appear in the standings in the order of the team
      codes. */
  lemma RankingStable(codes: seq<string>, stats: map<string, Record>, p: Percent)
    requires p.den > 0
    ensures WithPercent(Ranking(codes, stats), p) == WithPercent(Rows(codes, stats), p)
  {
    RowsProper(codes, stats);
    SortStable(Rows(codes, stats), p);
  }

  /** The standings hold one row per team code: their codes are a permutation
      of the team codes, so a code that only appears in games has no row. */
  lemma RankingOneRowPerTeam(codes: seq<string>, stats: map<string, Record>)
    ensures |Ranking(codes, stats)| == |codes|
    ensures multiset(Codes(Ranking(codes, stats))) == multiset(codes)
  {
    SortCodes(Rows(codes, stats));
    CodesOfRows(codes, stats);
    assert |Codes(Ranking(codes, stats))| == |multiset(codes)|;
  }

  lemma CodesOfRows(codes: seq<string>, stats: map<string, Record>)
    ensures Codes(Rows(codes, stats)) == codes
  {
  }

  /** Each row of the standings carries the record and percent of its own
      code. */
  lemma RankingRowsAreOwn(codes: seq<string>, stats: map<string, Record>)
    ensures forall i :: 0 <= i < |Ranking(codes, stats)| ==>
      Ranking(codes, stats)[i] == RowFor(Ranking(codes, stats)[i].code, stats)
  {
    PermutedRowsAreOwn(Ranking(codes, stats), codes, stats);
  }

  lemma PermutedRowsAreOwn(st: seq<Row>, codes: seq<string>, stats: map<string, Record>)
    requires multiset(st) == multiset(Rows(codes, stats))
    ensures forall i :: 0 <= i < |st| ==> st[i] == RowFor(st[i].code, stats)
  {
    var rows := Rows(codes, stats);
    forall i | 0 <= i < |st| ensures st[i] == RowFor(st[i].code, stats) {
      assert st[i] in multiset(rows);
      var j :| 0 <= j < |rows| && rows[j] == st[i];
    }
  }

  /** With distinct codes, every team code has exactly one row and nothing else
      has a row. */
  lemma RankingRowOf(codes: seq<string>, stats: map<string, Record>, c: string)
    requires forall i, j :: 0 <= i < j < |codes| ==> codes[i] != codes[j]
    ensures multiset(Codes(Ranking(codes, stats)))[c] == if c in codes then 1 else 0
  {
    RankingOneRowPerTeam(codes, stats);
    DistinctCount(codes, c);
  }

  lemma {:induction false} DistinctCount(codes: seq<string>, c: string)
    requires forall i, j :: 0 <= i < j < |codes| ==> codes[i] != codes[j]
    ensures multiset(codes)[c] == if c in codes then 1 else 0
  {
    if codes != [] {
      var tail := codes[1..];
      assert codes == [codes[0]] + tail;
      DistinctCount(tail, c);
      if c == codes[0] {
        assert c !in tail;
      }
    }
  }

  /** For a teams table, every known code has exactly one row in the
      standings, and a code that only appears in games has none. */
  lemma StandingsRowPerTeam(teams: TeamTable, games: seq<Game>)
    requires teams.Valid()
    ensures forall c :: multiset(Codes(Standings(teams.codes, games)))[c] == if c in teams.names then 1 else 0
  {
    forall c {
      RankingRowOf(teams.codes, Tally(games), c);
    }
  }

  /** A team that has not played gets 0-0-0 and a zero percent. */
  lemma IdleTeamRow(code: string, games: seq<Game>)
    requires Involving(games, code) == 0
    ensures RowFor(code, Tally(games)) == Row(code, 0, 0, 0, Percent(0, 1))
  {
    AbsentTeamHasNoRecord(games, code);
  }

  // ---------------------------------------------------------------------------
  // The calculator, as the program runs it
  // ---------------------------------------------------------------------------

  /** Records one game in the counter map: enters each team with an empty
      record if it has none yet, then credits the winner with a win and the
      loser with a loss, or both teams with a tie. */
  method RecordGame(stats: map<string, Record>, g: Game) returns (updated: map<string, Record>)
    ensures updated == ApplyGame(stats, g)
  {
    updated := stats;
    if g.team1 !in updated {
      updated := updated[g.team1 := NoGames];
    }
    if g.team2 !in updated {
      updated := updated[g.team2 := NoGames];
    }
    ghost var entered := updated;
    assert entered.Keys == stats.Keys + {g.team1, g.team2};
    assert forall c :: Lookup(entered, c) == Lookup(stats, c);
    if g.score1 > g.score2 {
      updated := updated[g.team1 := updated[g.team1].Add(Win)];
      updated := updated[g.team2 := updated[g.team2].Add(Loss)];
      assert updated == Credit(Credit(entered, g.team1, Win), g.team2, Loss);
    } else if g.score1 < g.score2 {
      updated := updated[g.team2 := updated[g.team2].Add(Win)];
      updated := updated[g.team1 := updated[g.team1].Add(Loss)];
      assert updated == Credit(Credit(entered, g.team2, Win), g.team1, Loss);
      CreditCommutes(entered, g.team2, Win, g.team1, Loss);
    } else {
      updated := updated[g.team1 := updated[g.team1].Add(Tie)];
      updated := updated[g.team2 := updated[g.team2].Add(Tie)];
      assert updated == Credit(Credit(entered, g.team1, Tie), g.team2, Tie);
    }
    CreditTwiceAgrees(stats, entered, g.team1, Classify(g.score1, g.score2), g.team2, Classify(g.score2, g.score1));
  }

  /** The first pass: the counter map built game by game, in file order. */
  method TallyGames(games: seq<Game>) returns (stats: map<string, Record>)
    ensures stats == Tally(games)
  {
    stats := map[];
    var i := 0;
    while i < |games|
      invariant 0 <= i <= |games|
      invariant stats == Tally(games[..i])
    {
      stats := RecordGame(stats, games[i]);
      assert games[..i + 1][..i] == games[..i];
      i := i + 1;
    }
    assert games[..i] == games;
  }

  /** The second pass: one row per code, in table order, from the code's
      record (an empty one for a code that played no game). */
  method BuildRows(codes: seq<string>, stats: map<string, Record>) returns (rows: seq<Row>)
    ensures rows == Rows(codes, stats)
  {
    rows := [];
    var j := 0;
    while j < |codes|
      invariant 0 <= j <= |codes|
      invariant |rows| == j
      invariant forall k :: 0 <= k < j ==> rows[k] == RowFor(codes[k], stats)
    {
      var code := codes[j];
      var record := if code in stats then stats[code] else NoGames;
      var total := record.wins + record.losses + record.ties;
      var percent := if total > 0 then Percent(2 * record.wins + record.ties, 2 * total) else Percent(0, 1);
      rows := rows + [Row(code, record.wins, record.losses, record.ties, percent)];
      j := j + 1;
    }
  }

  /** Builds the counter map game by game, then one row per known code in
      table order, then ranks the rows. */
  method CalculateStandings(teams: TeamTable, games: seq<Game>) returns (standings: seq<Row>)
    ensures standings == Standings(teams.codes, games)
    ensures Ranked(standings)
    ensures multiset(Codes(standings)) == multiset(teams.codes)
    ensures forall i :: 0 <= i < |standings| ==> standings[i] == RowFor(standings[i].code, Tally(games))
  {
    var stats := TallyGames(games);
    var rows := BuildRows(teams.codes, stats);
    standings := SortDesc(rows);
    RankingRanked(teams.codes, stats);
    RankingOneRowPerTeam(teams.codes, stats);
    RankingRowsAreOwn(teams.codes, stats);
  }
}
