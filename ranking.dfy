/** The ranking half of the generator: the output row, the three ranking
    rules, and the insertion that sortByRank performs for each team, as
    functions on sequences of rows. */
module Ranking {
  import opened Tally

  /** One line of the league table. */
  datatype RankingRow = RankingRow(rank: int, name: string, gamesPlayed: int, wins: int, draws: int,
                                   defeats: int, goalsFor: int, goalsAgainst: int, goalDiff: int,
                                   points: int)

  /** The row pushed for a team before ranking: its stored counters, its
      derived values, and rank 0. */
  function RowOf(r: Record): (row: RankingRow)
    ensures row.rank == 0 && row.name == r.name
    ensures row.gamesPlayed == r.gamesPlayed && row.wins == r.wins && row.draws == r.draws
    ensures row.goalsFor == r.goalsFor && row.goalsAgainst == r.goalsAgainst
    ensures row.wins + row.draws + row.defeats == row.gamesPlayed
    ensures row.goalDiff == row.goalsFor - row.goalsAgainst
    ensures row.points == 3 * row.wins + row.draws
    ensures r.Consistent() ==> 0 <= row.defeats && 0 <= row.points <= 3 * row.gamesPlayed
  {
    RankingRow(0, r.name, r.gamesPlayed, r.wins, r.draws, r.Defeats(),
               r.goalsFor, r.goalsAgainst, r.GoalDiff(), r.Points())
  }

  /** The counter `fld` as the row shows it. */
  function RowField(row: RankingRow, fld: Field): int
  {
    match fld
    case GamesPlayed => row.gamesPlayed
    case Wins => row.wins
    case Draws => row.draws
    case Defeats => row.defeats
    case GoalsFor => row.goalsFor
    case GoalsAgainst => row.goalsAgainst
  }

  /** A row shows every counter of the record it was made from. */
  lemma RowOfFields(r: Record)
    ensures forall fld :: RowField(RowOf(r), fld) == FieldOf(r, fld)
  {
  }

  // ---------------------------------------------------------------------
  // Ranking rules

  /** The three tie-break criteria of a row, in priority order. */
  datatype Criteria = Criteria(points: int, goalDiff: int, goalsFor: int)

  function CriteriaOf(row: RankingRow): Criteria
  {
    Criteria(row.points, row.goalDiff, row.goalsFor)
  }

  /** Reference order: `x` is strictly better than `y` when it is higher on
      the first criterion on which the two differ. */
  predicate Above(x: Criteria, y: Criteria)
  {
    || x.points > y.points
    || (x.points == y.points && x.goalDiff > y.goalDiff)
    || (x.points == y.points && x.goalDiff == y.goalDiff && x.goalsFor > y.goalsFor)
  }

  /** The last tie-break: between rows level on points and goal difference,
      it decides the order exactly as the full ranking does. */
  function RankingRule3(team1: RankingRow, team2: RankingRow): (r: bool)
    ensures team1.points == team2.points && team1.goalDiff == team2.goalDiff ==>
              (r <==> Above(CriteriaOf(team1), CriteriaOf(team2)))
  {
    team1.goalsFor > team2.goalsFor
  }

  /** The tie-break on equal points: between rows level on points, it
      decides the order exactly as the full ranking does. */
  function RankingRule2(team1: RankingRow, team2: RankingRow): (r: bool)
    ensures team1.points == team2.points ==> (r <==> Above(CriteriaOf(team1), CriteriaOf(team2)))
  {
    if team1.goalDiff > team2.goalDiff then true
    else if team1.goalDiff == team2.goalDiff then RankingRule3(team1, team2)
    else false
  }

  /** Whether `team1` outranks `team2`: exactly the lexicographic order on
      (points, goal difference, goals scored). */
  function RankingRule1(team1: RankingRow, team2: RankingRow): (r: bool)
    ensures r <==> Above(CriteriaOf(team1), CriteriaOf(team2))
  {
    if team1.points > team2.points then true
    else if team1.points == team2.points then RankingRule2(team1, team2)
    else false
  }

  /** rankingRule1 is a strict weak order: no row outranks itself or a row
      it ties with, two rows never outrank each other, rows that do not tie
      are always comparable, and both outranking and its complement chain. */
  lemma RankingRule1Order(a: RankingRow, b: RankingRow, c: RankingRow)
    ensures !RankingRule1(a, a)
    ensures CriteriaOf(a) == CriteriaOf(b) ==> !RankingRule1(a, b)
    ensures RankingRule1(a, b) ==> !RankingRule1(b, a)
    ensures CriteriaOf(a) != CriteriaOf(b) ==> RankingRule1(a, b) || RankingRule1(b, a)
    ensures RankingRule1(a, b) && RankingRule1(b, c) ==> RankingRule1(a, c)
    ensures !RankingRule1(b, a) && !RankingRule1(c, b) ==> !RankingRule1(c, a)
  {
  }

  // ---------------------------------------------------------------------
  // Insertion

  /** Best first: no row outranks a row placed before it. */
  ghost predicate Ordered(s: seq<RankingRow>)
  {
    forall i, j :: 0 <= i < j < |s| ==> !RankingRule1(s[j], s[i])
  }

  /** `x` pushed behind `s` and swapped upward for as long as it strictly
      outranks the row in front of it. */
  function InsertRow(s: seq<RankingRow>, x: RankingRow): (r: seq<RankingRow>)
    ensures |r| == |s| + 1
    decreases |s|
  {
    if s == [] || !RankingRule1(x, s[|s| - 1]) then s + [x]
    else
      assert s == s[..|s| - 1] + [s[|s| - 1]];
      InsertRow(s[..|s| - 1], x) + [s[|s| - 1]]
  }

  /** The rows inserted one at a time, in the order given. */
  function SortRows(rows: seq<RankingRow>): (r: seq<RankingRow>)
    ensures |r| == |rows|
    decreases |rows|
  {
    if rows == [] then []
    else
      assert rows == rows[..|rows| - 1] + [rows[|rows| - 1]];
      InsertRow(SortRows(rows[..|rows| - 1]), rows[|rows| - 1])
  }

  /** Insertion adds `x` and loses nothing. */
  lemma {:induction false} InsertRowPerm(s: seq<RankingRow>, x: RankingRow)
    ensures multiset(InsertRow(s, x)) == multiset(s) + multiset{x}
    decreases |s|
  {
    if s != [] && RankingRule1(x, s[|s| - 1]) {
      InsertRowPerm(s[..|s| - 1], x);
      assert s == s[..|s| - 1] + [s[|s| - 1]];
    }
  }

  /** The sort is a permutation of its input. */
  lemma {:induction false} SortRowsPerm(rows: seq<RankingRow>)
    ensures multiset(SortRows(rows)) == multiset(rows)
    decreases |rows|
  {
    if rows != [] {
      SortRowsPerm(rows[..|rows| - 1]);
      InsertRowPerm(SortRows(rows[..|rows| - 1]), rows[|rows| - 1]);
      assert rows == rows[..|rows| - 1] + [rows[|rows| - 1]];
    }
  }

  lemma {:induction false} InsertRowOrdered(s: seq<RankingRow>, x: RankingRow)
    requires Ordered(s)
    ensures Ordered(InsertRow(s, x))
    decreases |s|
  {
    if s != [] && RankingRule1(x, s[|s| - 1]) {
      var init, last := s[..|s| - 1], s[|s| - 1];
      var front := InsertRow(init, x);
      InsertRowOrdered(init, x);
      InsertRowPerm(init, x);
      forall i | 0 <= i < |front|
        ensures !RankingRule1(last, front[i])
      {
        assert front[i] in multiset(init) + multiset{x};
        if front[i] == x {
          RankingRule1Order(x, last, last);
        } else {
          assert front[i] in init;
          var j :| 0 <= j < |init| && init[j] == front[i];
          assert s[j] == init[j];
        }
      }
    } else if s != [] {
      var last := s[|s| - 1];
      forall i | 0 <= i < |s|
        ensures !RankingRule1(x, s[i])
      {
        RankingRule1Order(s[i], last, x);
      }
    }
  }

  /** The insertion sort leaves the rows ordered best first. */
  lemma {:induction false} SortRowsOrdered(rows: seq<RankingRow>)
    ensures Ordered(SortRows(rows))
    decreases |rows|
  {
    if rows != [] {
      SortRowsOrdered(rows[..|rows| - 1]);
      InsertRowOrdered(SortRows(rows[..|rows| - 1]), rows[|rows| - 1]);
    }
  }

  // ---------------------------------------------------------------------
  // Stability

  /** The rows of `s` that tie on all three criteria with `c`, in order. */
  function Tier(s: seq<RankingRow>, c: Criteria): seq<RankingRow>
    decreases |s|
  {
    if s == [] then []
    else Tier(s[..|s| - 1], c) + (if CriteriaOf(s[|s| - 1]) == c then [s[|s| - 1]] else [])
  }

  lemma {:induction false} TierAppend(a: seq<RankingRow>, b: seq<RankingRow>, c: Criteria)
    ensures Tier(a + b, c) == Tier(a, c) + Tier(b, c)
    decreases |b|
  {
    if b == [] {
      assert a + b == a;
    } else {
      var init := b[..|b| - 1];
      TierAppend(a, init, c);
      assert (a + b)[..|a + b| - 1] == a + init;
    }
  }

  /** Two rows that do not tie fall in different tiers, so their order
      does not matter to any tier. */
  lemma TierSwap(x: RankingRow, y: RankingRow, c: Criteria)
    requires CriteriaOf(x) != CriteriaOf(y)
    ensures Tier([x, y], c) == Tier([y, x], c)
  {
    assert [x, y][..1] == [x] && [y, x][..1] == [y];
    assert [x][..0] == [] && [y][..0] == [];
  }

  /** Insertion moves a row only past rows that do not tie with it. */
  lemma {:induction false} InsertRowTiers(s: seq<RankingRow>, x: RankingRow, c: Criteria)
    ensures Tier(InsertRow(s, x), c) == Tier(s + [x], c)
    decreases |s|
  {
    if s != [] && RankingRule1(x, s[|s| - 1]) {
      var init, last := s[..|s| - 1], s[|s| - 1];
      RankingRule1Order(x, last, last);
      calc {
        Tier(InsertRow(s, x), c);
        Tier(InsertRow(init, x) + [last], c);
        { TierAppend(InsertRow(init, x), [last], c); }
        Tier(InsertRow(init, x), c) + Tier([last], c);
        { InsertRowTiers(init, x, c); TierAppend(init, [x], c); }
        Tier(init, c) + Tier([x], c) + Tier([last], c);
        { TierAppend([x], [last], c); }
        Tier(init, c) + Tier([x, last], c);
        { TierSwap(x, last, c); }
        Tier(init, c) + Tier([last, x], c);
        { TierAppend(init, [last, x], c); assert init + [last, x] == s + [x]; }
        Tier(s + [x], c);
      }
    }
  }

  /** The sort is stable: rows that tie on all three criteria come out in
      the order they went in. */
  lemma {:induction false} SortRowsStable(rows: seq<RankingRow>, c: Criteria)
    ensures Tier(SortRows(rows), c) == Tier(rows, c)
    decreases |rows|
  {
    if rows != [] {
      var init, x := rows[..|rows| - 1], rows[|rows| - 1];
      SortRowsStable(init, c);
      InsertRowTiers(SortRows(init), x, c);
      TierAppend(SortRows(init), [x], c);
      TierAppend(init, [x], c);
      assert init + [x] == rows;
    }
  }

  // ---------------------------------------------------------------------
  // Ranks

  /** The final loop: position i gets rank i + 1. */
  function Ranked(s: seq<RankingRow>): (r: seq<RankingRow>)
    ensures |r| == |s|
    ensures forall i :: 0 <= i < |s| ==> r[i] == s[i].(rank := i + 1)
  {
    seq(|s|, i requires 0 <= i < |s| => s[i].(rank := i + 1))
  }

  /** Every row with its rank cleared, as before the final loop. */
  function Unranked(s: seq<RankingRow>): (r: seq<RankingRow>)
    ensures |r| == |s|
    ensures forall i :: 0 <= i < |s| ==> r[i] == s[i].(rank := 0)
  {
    seq(|s|, i requires 0 <= i < |s| => s[i].(rank := 0))
  }

  /** Numbering the rows neither reorders them nor changes what ranks them. */
  lemma RankedKeepsOrder(s: seq<RankingRow>)
    requires forall i :: 0 <= i < |s| ==> s[i].rank == 0
    ensures Unranked(Ranked(s)) == s
    ensures Ordered(s) ==> Ordered(Ranked(s))
  {
    assert Unranked(Ranked(s)) == s;
  }

  /** Sorting keeps every row as it is, so rows pushed with rank 0 come out
      with rank 0. */
  lemma SortRowsUnranked(rows: seq<RankingRow>)
    requires forall i :: 0 <= i < |rows| ==> rows[i].rank == 0
    ensures forall i :: 0 <= i < |rows| ==> SortRows(rows)[i].rank == 0
  {
    var s := SortRows(rows);
    SortRowsPerm(rows);
    forall i | 0 <= i < |s|
      ensures s[i].rank == 0
    {
      assert s[i] in multiset(rows);
    }
  }

  /** What the ranker promises for rows pushed with rank 0: ranks 1..N down
      the table, best first, the same rows, and rows that tie on all three
      criteria kept in the order they were pushed. */
  lemma RankedSortRows(rows: seq<RankingRow>)
    requires forall i :: 0 <= i < |rows| ==> rows[i].rank == 0
    ensures |Ranked(SortRows(rows))| == |rows|
    ensures forall i :: 0 <= i < |rows| ==> Ranked(SortRows(rows))[i].rank == i + 1
    ensures Ordered(Ranked(SortRows(rows)))
    ensures multiset(Unranked(Ranked(SortRows(rows)))) == multiset(rows)
    ensures forall c :: Tier(Unranked(Ranked(SortRows(rows))), c) == Tier(rows, c)
  {
    SortRowsOrdered(rows);
    SortRowsUnranked(rows);
    SortRowsPerm(rows);
    RankedKeepsOrder(SortRows(rows));
    forall c
      ensures Tier(SortRows(rows), c) == Tier(rows, c)
    {
      SortRowsStable(rows, c);
    }
  }
}

