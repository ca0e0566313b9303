/** Small seasons worked through the value model of the generator, for any
    teams whose keys differ. */
module ExampleSeasons {
  import opened Fixtures
  import opened Tally
  import opened Aggregation
  import opened Ranking
  import opened LeagueTableGenerator

  /** Two matches are two steps from the empty map. */
  lemma AggregateTwo(m1: Match, m2: Match, f: KeyField)
    ensures Aggregate([m1, m2], f) == Step(Step(Empty, m1, f), m2, f)
  {
    assert [] + [m1] == [m1];
    assert [m1] + [m2] == [m1, m2];
    AggregateSnoc([], m1, f);
    AggregateSnoc([m1], m2, f);
  }

  function TwoTeamsSeason(a: Team, b: Team): InputData
  {
    InputData(None, [Round([Match(a, b, 3, 1)]), Round([Match(a, b, 1, 1)])])
  }

  lemma TwoTeamsMap(a: Team, b: Team)
    requires a.key != b.key
    ensures TeamMap(TwoTeamsSeason(a, b).rounds, ByKey)
         == Table([a.key, b.key], map[a.key := Record(a.name, 2, 1, 1, 4, 2), b.key := Record(b.name, 2, 0, 1, 2, 4)])
  {
    var m1, m2 := Match(a, b, 3, 1), Match(a, b, 1, 1);
    var rounds := TwoTeamsSeason(a, b).rounds;
    assert AllMatches(rounds) == [m1, m2] by {
      assert rounds[..1] == [Round([m1])];
      assert [Round([m1])][..0] == [];
      assert AllMatches([]) == [];
    }
    AggregateTwo(m1, m2, ByKey);
    TwoTeamsSteps(a, b);
  }

  lemma TwoTeamsSteps(a: Team, b: Team)
    requires a.key != b.key
    ensures Step(Step(Empty, Match(a, b, 3, 1), ByKey), Match(a, b, 1, 1), ByKey)
         == Table([a.key, b.key], map[a.key := Record(a.name, 2, 1, 1, 4, 2), b.key := Record(b.name, 2, 0, 1, 2, 4)])
  {
    var t1 := Table([a.key, b.key], map[a.key := Record(a.name, 1, 1, 0, 3, 1), b.key := Record(b.name, 1, 0, 0, 1, 3)]);
    assert Step(Empty, Match(a, b, 3, 1), ByKey) == t1;
  }

  /** Two teams: `a` beats `b` 3-1 in the first round, they draw 1-1 in the
      second. `a` is first on 4 points, `b` second on 1; with no season
      name the table's name is "". */
  lemma TwoTeams(a: Team, b: Team)
    requires a.key != b.key
    ensures LeagueTable(TwoTeamsSeason(a, b))
         == OutputData("", [RankingRow(1, a.name, 2, 1, 1, 0, 4, 2, 2, 4),
                            RankingRow(2, b.name, 2, 0, 1, 1, 2, 4, -2, 1)])
  {
    TwoTeamsMap(a, b);
    var t := TeamMap(TwoTeamsSeason(a, b).rounds, ByKey);
    var ra, rb := RankingRow(0, a.name, 2, 1, 1, 0, 4, 2, 2, 4), RankingRow(0, b.name, 2, 0, 1, 1, 2, 4, -2, 1);
    assert TableRows(t) == [ra, rb];
    assert SortRows([ra, rb]) == [ra, rb] by {
      assert [ra, rb][..1] == [ra];
      assert SortRows([ra]) == [ra];
    }
  }

  function LevelTeamsSeason(a: Team, b: Team, c: Team, name: string): InputData
  {
    InputData(Some(name), [Round([Match(a, c, 1, 0), Match(b, c, 1, 0)])])
  }

  lemma LevelTeamsMap(a: Team, b: Team, c: Team, name: string)
    requires a.key != b.key && b.key != c.key && a.key != c.key
    ensures TeamMap(LevelTeamsSeason(a, b, c, name).rounds, ByKey)
         == Table([a.key, c.key, b.key], map[a.key := Record(a.name, 1, 1, 0, 1, 0), c.key := Record(c.name, 2, 0, 0, 0, 2),
                                            b.key := Record(b.name, 1, 1, 0, 1, 0)])
  {
    var m1, m2 := Match(a, c, 1, 0), Match(b, c, 1, 0);
    var rounds := LevelTeamsSeason(a, b, c, name).rounds;
    assert AllMatches(rounds) == [m1, m2] by {
      assert rounds[..0] == [];
    }
    AggregateTwo(m1, m2, ByKey);
    LevelTeamsSteps(a, b, c);
  }

  lemma LevelTeamsSteps(a: Team, b: Team, c: Team)
    requires a.key != b.key && b.key != c.key && a.key != c.key
    ensures Step(Step(Empty, Match(a, c, 1, 0), ByKey), Match(b, c, 1, 0), ByKey)
         == Table([a.key, c.key, b.key], map[a.key := Record(a.name, 1, 1, 0, 1, 0), c.key := Record(c.name, 2, 0, 0, 0, 2),
                                            b.key := Record(b.name, 1, 1, 0, 1, 0)])
  {
    var t1 := Table([a.key, c.key], map[a.key := Record(a.name, 1, 1, 0, 1, 0), c.key := Record(c.name, 1, 0, 0, 0, 1)]);
    assert Step(Empty, Match(a, c, 1, 0), ByKey) == t1;
  }

  /** Three teams, two of which finish level on points, goal difference and
      goals scored: `a` and `b` both beat `c` 1-0, `a`'s match coming first.
      They get the distinct ranks 1 and 2, in the order first seen, and `c`
      is third; the table carries the season's name. */
  lemma LevelTeams(a: Team, b: Team, c: Team, name: string)
    requires a.key != b.key && b.key != c.key && a.key != c.key
    ensures LeagueTable(LevelTeamsSeason(a, b, c, name))
         == OutputData(name, [RankingRow(1, a.name, 1, 1, 0, 0, 1, 0, 1, 3),
                              RankingRow(2, b.name, 1, 1, 0, 0, 1, 0, 1, 3),
                              RankingRow(3, c.name, 2, 0, 0, 2, 0, 2, -2, 0)])
  {
    LevelTeamsMap(a, b, c, name);
    var t := TeamMap(LevelTeamsSeason(a, b, c, name).rounds, ByKey);
    var ra, rc, rb := RankingRow(0, a.name, 1, 1, 0, 0, 1, 0, 1, 3), RankingRow(0, c.name, 2, 0, 0, 2, 0, 2, -2, 0),
                      RankingRow(0, b.name, 1, 1, 0, 0, 1, 0, 1, 3);
    assert TableRows(t) == [ra, rc, rb];
    LevelSort(ra, rb, rc);
  }

  lemma LevelSort(ra: RankingRow, rb: RankingRow, rc: RankingRow)
    requires CriteriaOf(ra) == CriteriaOf(rb) && Above(CriteriaOf(ra), CriteriaOf(rc))
    ensures SortRows([ra, rc, rb]) == [ra, rb, rc]
  {
    assert [ra, rc, rb][..2] == [ra, rc];
    assert [ra, rc][..1] == [ra];
    assert SortRows([ra]) == [ra];
    assert SortRows([ra, rc]) == [ra, rc];
    assert InsertRow([ra], rb) == [ra, rb];
    assert InsertRow([ra, rc], rb) == [ra, rb, rc];
  }
}
