/** The data shared by the standings calculator and the team results extractor:
    the loaded games, the loaded teams, a game's outcome from one side, and a
    win/loss/tie record. */
module Games {

  /** One line of the games file, already parsed: the date, the first and the
      second team's code, and their scores. The order of a sequence of games is
      the file order. */
  datatype Game = Game(date: string, team1: string, team2: string, score1: int, score2: int)

  /** True when `code` plays in `g`, on either side. */
  predicate Involves(g: Game, code: string) {
    g.team1 == code || g.team2 == code
  }

  /** No game pits a team against itself. */
  predicate NoSelfGames(games: seq<Game>) {
    forall i :: 0 <= i < |games| ==> games[i].team1 != games[i].team2
  }

  /** The number of games in which `code` plays. */
  function Involving(games: seq<Game>, code: string): (n: nat)
    ensures n <= |games|
  {
    if games == [] then 0
    else Involving(games[..|games| - 1], code) + (if Involves(games[|games| - 1], code) then 1 else 0)
  }

  /** The teams file, already parsed: the codes in file order (the iteration
      order of the code-to-name dictionary) and the name of each code. */
  datatype TeamTable = TeamTable(codes: seq<string>, names: map<string, string>) {
    /** A dictionary has each key once, and its keys are exactly the codes. */
    predicate Valid() {
      && (forall i, j :: 0 <= i < j < |codes| ==> codes[i] != codes[j])
      && (forall c :: c in names ==> c in codes)
      && (forall i :: 0 <= i < |codes| ==> codes[i] in names)
    }
  }

  /** A game's result seen from one team. */
  datatype Outcome = Win | Loss | Tie

  /** The result for a team that scored `us` against an opponent that scored
      `them`: strict comparison of the two scores. */
  function Classify(us: int, them: int): Outcome {
    if us > them then Win else if us < them then Loss else Tie
  }

  /** Exactly one of win, loss and tie, by strict comparison. */
  lemma ClassifyMeaning(us: int, them: int)
    ensures Classify(us, them) == Win <==> us > them
    ensures Classify(us, them) == Loss <==> us < them
    ensures Classify(us, them) == Tie <==> us == them
  {
  }

  /** The same game seen from the other side. */
  function Opposite(o: Outcome): Outcome {
    match o
    case Win => Loss
    case Loss => Win
    case Tie => Tie
  }

  /** The two teams of a game always see opposite results: one side's win is
      the other's loss, and a tie is a tie for both. */
  lemma ClassifyMirror(us: int, them: int)
    ensures Classify(them, us) == Opposite(Classify(us, them))
  {
  }

  /** A team's season record. */
  datatype Record = Record(wins: nat, losses: nat, ties: nat) {
    /** The number of games the record covers. */
    function Games(): nat {
      wins + losses + ties
    }

    /** How many games of the record ended in `o`. */
    function Of(o: Outcome): nat {
      match o
      case Win => wins
      case Loss => losses
      case Tie => ties
    }

    /** The record after one more game that ended in `o` for this team. */
    function Add(o: Outcome): Record {
      match o
      case Win => this.(wins := wins + 1)
      case Loss => this.(losses := losses + 1)
      case Tie => this.(ties := ties + 1)
    }
  }

  /** One more game raises the count of its outcome by one and nothing else. */
  lemma AddOne(r: Record, o: Outcome)
    ensures r.Add(o).Of(o) == r.Of(o) + 1
    ensures forall o' :: o' != o ==> r.Add(o).Of(o') == r.Of(o')
    ensures r.Add(o).Games() == r.Games() + 1
  {
  }

  /** The record of a team that has not played. */
  const NoGames := Record(0, 0, 0)
}
