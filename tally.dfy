/** The per-team running totals of the league table as a value: the four
    stored counters plus games played and the name, with goal difference,
    defeats and points derived on demand, never stored. */
module Tally {

  /** Points for a win and for a draw; a defeat earns nothing. */
  const PtsWin: int := 3
  const PtsDraw: int := 1

  datatype Record = Record(name: string, gamesPlayed: nat, wins: nat, draws: nat,
                           goalsFor: nat, goalsAgainst: nat)
  {
    /** No more wins and draws than games: defeats are never negative. */
    ghost predicate Consistent()
    {
      wins + draws <= gamesPlayed
    }

    function GoalDiff(): (d: int)
      ensures d + goalsAgainst == goalsFor
      ensures 0 - goalsAgainst <= d <= goalsFor
    {
      goalsFor - goalsAgainst
    }

    function Defeats(): (d: int)
      ensures wins + draws + d == gamesPlayed
      ensures Consistent() <==> d >= 0
    {
      gamesPlayed - wins - draws
    }

    function Points(): (p: int)
      ensures p == 3 * wins + draws
      ensures Consistent() ==> 0 <= p <= 3 * gamesPlayed
    {
      wins * PtsWin + draws * PtsDraw
    }

    /** The totals after one more match scored `gf` to `ga` from this
        team's side. */
    function WithMatch(gf: nat, ga: nat): (r: Record)
      ensures r.name == name
      ensures r.gamesPlayed == gamesPlayed + 1
      ensures r.goalsFor == goalsFor + gf && r.goalsAgainst == goalsAgainst + ga
      ensures r.draws == draws + (if gf == ga then 1 else 0)
      ensures r.wins == wins + (if gf > ga then 1 else 0)
      ensures r.Defeats() == Defeats() + (if gf < ga then 1 else 0)
      ensures Consistent() ==> r.Consistent()
    {
      var draws' := if gf == ga then draws + 1 else draws;
      var wins' := if gf != ga && gf > ga then wins + 1 else wins;
      Record(name, gamesPlayed + 1, wins', draws', goalsFor + gf, goalsAgainst + ga)
    }
  }

  /** A fresh record: the given name and every counter zero. */
  function Zero(name: string): (r: Record)
    ensures r.Consistent() && r.name == name
    ensures r.gamesPlayed == 0 && r.wins == 0 && r.draws == 0 && r.goalsFor == 0 && r.goalsAgainst == 0
    ensures forall fld :: FieldOf(r, fld) == 0
  {
    Record(name, 0, 0, 0, 0, 0)
  }

  /** One score line as a call to addMatch sees it: (goals for, goals against). */
  type Score = (nat, nat)

  /** The record after a sequence of addMatch calls, in order. */
  function Replay(r: Record, scores: seq<Score>): Record
    decreases |scores|
  {
    if scores == [] then r
    else Replay(r, scores[..|scores| - 1]).WithMatch(scores[|scores| - 1].0, scores[|scores| - 1].1)
  }

  /** Starting from the constructor's zero state, any sequence of addMatch
      calls keeps defeats non-negative and wins + draws + defeats equal to the
      number of calls; the name never changes. */
  lemma {:induction false} ReplayFromZero(name: string, scores: seq<Score>)
    ensures Replay(Zero(name), scores).Consistent()
    ensures Replay(Zero(name), scores).Defeats() >= 0
    ensures Replay(Zero(name), scores).gamesPlayed == |scores|
    ensures Replay(Zero(name), scores).name == name
    decreases |scores|
  {
    if scores != [] {
      ReplayFromZero(name, scores[..|scores| - 1]);
    }
  }

  /** The counters one can add up over a table. */
  datatype Field = GamesPlayed | Wins | Draws | Defeats | GoalsFor | GoalsAgainst

  function FieldOf(r: Record, fld: Field): int
  {
    match fld
    case GamesPlayed => r.gamesPlayed
    case Wins => r.wins
    case Draws => r.draws
    case Defeats => r.Defeats()
    case GoalsFor => r.goalsFor
    case GoalsAgainst => r.goalsAgainst
  }

  /** What one match scored `gf` to `ga` adds to a counter, judged from the
      side that scored `gf`. */
  function Gain(gf: nat, ga: nat, fld: Field): int
  {
    match fld
    case GamesPlayed => 1
    case Wins => if gf > ga then 1 else 0
    case Draws => if gf == ga then 1 else 0
    case Defeats => if gf < ga then 1 else 0
    case GoalsFor => gf
    case GoalsAgainst => ga
  }

  /** Each counter moves by exactly the match's gain. */
  lemma WithMatchGain(r: Record, gf: nat, ga: nat, fld: Field)
    ensures FieldOf(r.WithMatch(gf, ga), fld) == FieldOf(r, fld) + Gain(gf, ga, fld)
  {
  }
}
