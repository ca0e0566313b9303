/** The league table generator: TeamData objects updated in place while
    the matches are walked, the team map built from them, the insertion
    sort that ranks them, and the entry point that ties both together. */
module LeagueTableGenerator {
  import opened Fixtures
  import opened Tally
  import opened Aggregation
  import opened Ranking

  /** One team's running totals, updated in place by each match. */
  class TeamData {
    var name: string
    var gamesPlayed: nat
    var wins: nat
    var draws: nat
    var goalsFor: nat
    var goalsAgainst: nat

    /** The stored fields as a value. */
    function Stats(): Record
      reads this
    {
      Record(name, gamesPlayed, wins, draws, goalsFor, goalsAgainst)
    }

    ghost predicate Valid()
      reads this
    {
      Stats().Consistent()
    }

    constructor (name: string)
      ensures Stats() == Zero(name) && Valid()
    {
      this.name := name;
      gamesPlayed := 0;
      wins := 0;
      draws := 0;
      goalsFor := 0;
      goalsAgainst := 0;
    }

    /** Counts one more match scored `goalsFor` to `goalsAgainst` from this
        team's side: a draw or a win is counted, a defeat is left to be
        derived; the name is never touched. */
    method AddMatch(goalsFor: nat, goalsAgainst: nat)
      modifies this
      ensures Stats() == old(Stats()).WithMatch(goalsFor, goalsAgainst)
      ensures old(Valid()) ==> Valid()
    {
      if goalsFor == goalsAgainst {
        draws := draws + 1;
      } else if goalsFor > goalsAgainst {
        wins := wins + 1;
      }
      this.goalsFor := this.goalsFor + goalsFor;
      this.goalsAgainst := this.goalsAgainst + goalsAgainst;
      gamesPlayed := gamesPlayed + 1;
    }

    function GoalDiff(): (d: int)
      reads this
      ensures d + goalsAgainst == goalsFor
    {
      Stats().GoalDiff()
    }

    function Defeats(): (d: int)
      reads this
      ensures wins + draws + d == gamesPlayed
      ensures Valid() <==> d >= 0
    {
      Stats().Defeats()
    }

    function Points(): (p: int)
      reads this
      ensures p == 3 * wins + draws
      ensures Valid() ==> 0 <= p <= 3 * gamesPlayed
    {
      Stats().Points()
    }
  }

  // ---------------------------------------------------------------------
  // The team map: a dictionary object, i.e. its keys in insertion order
  // and the TeamData each key maps to.

  /** Distinct keys never share a TeamData object. */
  ghost predicate Separate(teams: map<string, TeamData>)
  {
    forall a, b :: a in teams && b in teams && a != b ==> teams[a] != teams[b]
  }

  /** The objects of the map hold exactly the value `t`. */
  ghost predicate Mirrors(keys: seq<string>, teams: map<string, TeamData>, t: Table)
    reads teams.Values
  {
    && keys == t.keys
    && teams.Keys == t.records.Keys
    && forall k :: k in teams ==> teams[k].Stats() == t.records[k]
  }

  /** A team's record is created the first time its key is seen, named
      `name`; a key already present keeps its object untouched. */
  method EnsureTeam(keys0: seq<string>, teams0: map<string, TeamData>, key: string, name: string, ghost t: Table)
    returns (keys: seq<string>, teams: map<string, TeamData>)
    requires Mirrors(keys0, teams0, t) && Separate(teams0)
    ensures Mirrors(keys, teams, Admit(t, key, name))
    ensures Separate(teams)
    ensures forall k :: k in teams0 ==> k in teams && teams[k] == teams0[k]
    ensures forall k :: k in teams && k !in teams0 ==> fresh(teams[k])
  {
    keys, teams := keys0, teams0;
    if key !in teams {
      var team := new TeamData(name);
      assert forall k :: k in teams0 ==> teams0[k] != team;
      teams := teams[key := team];
      keys := keys + [key];
    }
    ghost var a := Admit(t, key, name);
    forall k | k in teams
      ensures teams[k].Stats() == a.records[k]
    {
      if k != key || key in t.records {
        assert k in t.records;
      }
    }
  }

  /** `teams[key].addMatch(goalsFor, goalsAgainst)`: the one object of `key`
      changes, every other team keeps its totals. */
  method CreditTeam(keys: seq<string>, teams: map<string, TeamData>, key: string, goalsFor: nat, goalsAgainst: nat, ghost t: Table)
    requires Mirrors(keys, teams, t) && Separate(teams) && key in teams
    modifies teams[key]
    ensures Mirrors(keys, teams, Credit(t, key, goalsFor, goalsAgainst))
  {
    teams[key].AddMatch(goalsFor, goalsAgainst);
    forall k | k in teams
      ensures teams[k].Stats() == Credit(t, key, goalsFor, goalsAgainst).records[k]
    {
      if k != key {
        assert teams[k] != teams[key];
      }
    }
  }

  /** The first half of the inner loop's body: both teams of `m` get an
      object if they have none, team1 first. */
  method AdmitBoth(keys0: seq<string>, teams0: map<string, TeamData>, m: Match, ghost t: Table)
    returns (keys: seq<string>, teams: map<string, TeamData>)
    requires Mirrors(keys0, teams0, t) && Separate(teams0)
    ensures Mirrors(keys, teams, Admit(Admit(t, m.team1.key, m.team1.name), m.team2.key, m.team2.name))
    ensures Separate(teams)
    ensures forall k :: k in teams0 ==> k in teams && teams[k] == teams0[k]
    ensures forall k :: k in teams && k !in teams0 ==> fresh(teams[k])
  {
    keys, teams := EnsureTeam(keys0, teams0, m.team1.key, m.team1.name, t);
    keys, teams := EnsureTeam(keys, teams, m.team2.key, m.team2.name, Admit(t, m.team1.key, m.team1.name));
  }

  /** The second half: team1 is credited with the match as it scored it,
      then team2 with the scores the other way round. */
  method CreditBoth(keys: seq<string>, teams: map<string, TeamData>, m: Match, ghost a: Table)
    requires Mirrors(keys, teams, a) && Separate(teams)
    requires m.team1.key in teams && m.team2.key in teams
    modifies teams[m.team1.key], teams[m.team2.key]
    ensures Mirrors(keys, teams, Credit(Credit(a, m.team1.key, m.score1, m.score2), m.team2.key, m.score2, m.score1))
  {
    CreditTeam(keys, teams, m.team1.key, m.score1, m.score2, a);
    CreditTeam(keys, teams, m.team2.key, m.score2, m.score1, Credit(a, m.team1.key, m.score1, m.score2));
  }

  /** The body of the inner loop, for one match `m`. */
  method RecordMatch(keys0: seq<string>, teams0: map<string, TeamData>, m: Match, ghost t: Table)
    returns (keys: seq<string>, teams: map<string, TeamData>)
    requires Mirrors(keys0, teams0, t) && Separate(teams0)
    modifies teams0.Values
    ensures Mirrors(keys, teams, Step(t, m, ByKey))
    ensures Separate(teams)
    ensures forall k :: k in teams0 ==> k in teams && teams[k] == teams0[k]
    ensures forall k :: k in teams && k !in teams0 ==> fresh(teams[k])
  {
    StepStages(t, m, ByKey, m.team1.key, m.team2.key);
    keys, teams := AdmitBoth(keys0, teams0, m, t);
    CreditBoth(keys, teams, m, Admit(Admit(t, m.team1.key, m.team1.name), m.team2.key, m.team2.name));
  }

  /** One pass of createTeamMap's outer loop: the round's matches recorded
      in order, starting from the map of the matches `done` before it. */
  method RecordRound(keys0: seq<string>, teams0: map<string, TeamData>, matches: seq<Match>, ghost done: seq<Match>)
    returns (keys: seq<string>, teams: map<string, TeamData>)
    requires Mirrors(keys0, teams0, Aggregate(done, ByKey)) && Separate(teams0)
    modifies teams0.Values
    ensures Mirrors(keys, teams, Aggregate(done + matches, ByKey))
    ensures Separate(teams)
    ensures forall k :: k in teams ==> teams[k] in teams0.Values || fresh(teams[k])
  {
    keys, teams := keys0, teams0;
    ghost var table := Aggregate(done, ByKey);
    assert done + matches[..0] == done;
    for i := 0 to |matches|
      invariant table == Aggregate(done + matches[..i], ByKey)
      invariant Mirrors(keys, teams, table)
      invariant Separate(teams)
      invariant forall k :: k in teams ==> teams[k] in teams0.Values || fresh(teams[k])
    {
      AggregateNext(done, matches, i, ByKey);
      ghost var before := teams;
      keys, teams := RecordMatch(keys, teams, matches[i], table);
      forall k | k in teams
        ensures teams[k] in teams0.Values || fresh(teams[k])
      {
        if k in before {
          assert teams[k] == before[k];
        }
      }
      table := Step(table, matches[i], ByKey);
    }
    assert matches[..|matches|] == matches;
  }

  /** createTeamMap: every match of every round is recorded once, in order,
      so the map ends up holding exactly the value model's team map. */
  method CreateTeamMap(rounds: seq<Round>) returns (keys: seq<string>, teams: map<string, TeamData>)
    ensures Mirrors(keys, teams, TeamMap(rounds, ByKey))
    ensures Separate(teams)
    ensures forall k :: k in teams ==> fresh(teams[k])
  {
    keys, teams := [], map[];
    for r := 0 to |rounds|
      invariant Mirrors(keys, teams, Aggregate(AllMatches(rounds[..r]), ByKey))
      invariant Separate(teams)
      invariant forall k :: k in teams ==> fresh(teams[k])
    {
      keys, teams := RecordRound(keys, teams, rounds[r].matches, AllMatches(rounds[..r]));
      AllMatchesSnoc(rounds, r);
    }
    assert rounds[..|rounds|] == rounds;
  }

  // ---------------------------------------------------------------------
  // Ranking the map

  /** The rows of the value model's table, one per key, in key order. */
  function TableRows(t: Table): (rows: seq<RankingRow>)
    requires forall k :: k in t.keys ==> k in t.records
    ensures |rows| == |t.keys|
    ensures forall i :: 0 <= i < |t.keys| ==> rows[i] == RowOf(t.records[t.keys[i]])
  {
    seq(|t.keys|, i requires 0 <= i < |t.keys| => RowOf(t.records[t.keys[i]]))
  }

  /** The rows the objects of the map give, visiting the keys in order. */
  ghost function RowsOf(keys: seq<string>, teams: map<string, TeamData>): (rows: seq<RankingRow>)
    requires forall k :: k in keys ==> k in teams
    reads teams.Values
    ensures |rows| == |keys|
  {
    if keys == [] then []
    else RowsOf(keys[..|keys| - 1], teams) + [RowOf(teams[keys[|keys| - 1]].Stats())]
  }

  lemma RowsOfIndex(keys: seq<string>, teams: map<string, TeamData>, i: nat)
    requires forall k :: k in keys ==> k in teams
    requires i < |keys|
    ensures RowsOf(keys, teams)[i] == RowOf(teams[keys[i]].Stats())
    decreases |keys|
  {
    if i < |keys| - 1 {
      RowsOfIndex(keys[..|keys| - 1], teams, i);
    }
  }

  /** A map that mirrors a well-formed table gives that table's rows. */
  lemma MirrorsRows(keys: seq<string>, teams: map<string, TeamData>, t: Table)
    requires Mirrors(keys, teams, t) && WellFormed(t)
    ensures forall k :: k in keys ==> k in teams
    ensures RowsOf(keys, teams) == TableRows(t)
  {
    forall i | 0 <= i < |keys|
      ensures RowsOf(keys, teams)[i] == TableRows(t)[i]
    {
      RowsOfIndex(keys, teams, i);
    }
  }

  /** One swap of the bubbling loop moves `x` one place up. */
  lemma SwapUp(s: seq<RankingRow>, x: RankingRow, idx: nat)
    requires 0 < idx <= |s|
    ensures (s[..idx] + [x] + s[idx..])[idx] == x
    ensures (s[..idx] + [x] + s[idx..])[idx - 1] == s[idx - 1]
    ensures (s[..idx] + [x] + s[idx..])[idx := s[idx - 1]][idx - 1 := x] == s[..idx - 1] + [x] + s[idx - 1..]
  {
  }

  /** ... and is the step insertion takes when `x` outranks the row in
      front of it. */
  lemma InsertRowShift(s: seq<RankingRow>, x: RankingRow, idx: nat)
    requires 0 < idx <= |s| && RankingRule1(x, s[idx - 1])
    ensures InsertRow(s[..idx], x) + s[idx..] == InsertRow(s[..idx - 1], x) + s[idx - 1..]
  {
    assert s[..idx][..idx - 1] == s[..idx - 1];
    assert s[idx - 1..] == [s[idx - 1]] + s[idx..];
  }

  /** The final loop of sortByRank: the rows are numbered 1, 2, ... from
      the top. */
  method NumberRows(s: seq<RankingRow>) returns (sorted: seq<RankingRow>)
    ensures sorted == Ranked(s)
  {
    sorted := s;
    var rank := 0;
    for i := 0 to |sorted|
      invariant rank == i && |sorted| == |s|
      invariant forall j :: 0 <= j < i ==> sorted[j] == s[j].(rank := j + 1)
      invariant forall j :: i <= j < |sorted| ==> sorted[j] == s[j]
    {
      rank := rank + 1;
      sorted := sorted[i := sorted[i].(rank := rank)];
    }
  }

  /** One pass of sortByRank's first loop: `row` is pushed at the bottom
      and swapped upward while it strictly outranks the row in front of it,
      which is exactly inserting it into `s`. */
  method BubbleUp(s: seq<RankingRow>, row: RankingRow) returns (sorted: seq<RankingRow>)
    ensures sorted == InsertRow(s, row)
  {
    sorted := s + [row];
    var idx := |sorted| - 1;
    assert s[..idx] == s;
    while idx > 0 && RankingRule1(sorted[idx], sorted[idx - 1])
      invariant 0 <= idx <= |s|
      invariant sorted == s[..idx] + [row] + s[idx..]
      invariant idx > 0 ==> sorted[idx] == row && sorted[idx - 1] == s[idx - 1]
      invariant InsertRow(s, row) == InsertRow(s[..idx], row) + s[idx..]
      decreases idx
    {
      SwapUp(s, row, idx);
      InsertRowShift(s, row, idx);
      var temp := sorted[idx];
      sorted := sorted[idx := sorted[idx - 1]];
      sorted := sorted[idx - 1 := temp];
      idx := idx - 1;
      if idx > 0 {
        SwapUp(s, row, idx);
      }
    }
    if idx > 0 {
      assert s[..idx] == s[..idx - 1] + [s[idx - 1]];
    }
  }

  /** The first loop of sortByRank: each team, in key order, is pushed as
      a row with rank 0 and swapped upward while it strictly outranks the
      row in front of it. */
  method InsertTeams(keys: seq<string>, teams: map<string, TeamData>) returns (sorted: seq<RankingRow>)
    requires forall k :: k in keys ==> k in teams
    ensures sorted == SortRows(RowsOf(keys, teams))
  {
    ghost var rows := RowsOf(keys, teams);
    sorted := [];
    var rank := 0;
    for j := 0 to |keys|
      invariant sorted == SortRows(rows[..j])
    {
      var team := teams[keys[j]];
      var row := RankingRow(rank, team.name, team.gamesPlayed, team.wins, team.draws, team.Defeats(),
                            team.goalsFor, team.goalsAgainst, team.GoalDiff(), team.Points());
      assert row == rows[j] by {
        RowsOfIndex(keys, teams, j);
      }
      ghost var s := sorted;
      assert SortRows(rows[..j + 1]) == InsertRow(s, row) by {
        assert rows[..j + 1] == rows[..j] + [row];
      }
      sorted := BubbleUp(sorted, row);
    }
    assert rows[..|keys|] == rows;
  }

  /** sortByRank: the rows in insertion order (InsertTeams), then numbered
      1, 2, ... from the top (NumberRows). */
  method SortByRank(keys: seq<string>, teams: map<string, TeamData>) returns (sorted: seq<RankingRow>)
    requires forall k :: k in keys ==> k in teams
    ensures sorted == Ranked(SortRows(RowsOf(keys, teams)))
  {
    sorted := InsertTeams(keys, teams);
    sorted := NumberRows(sorted);
  }

  // ---------------------------------------------------------------------
  // The output and the entry point

  /** The document createJSON serialises: the title, or "" when there is
      none, and the rows as given. */
  datatype OutputData = OutputData(name: string, table: seq<RankingRow>)

  function CreateOutput(data: seq<RankingRow>, title: Option<string>): (out: OutputData)
    ensures out.table == data
    ensures title.Some? ==> out.name == title.value
    ensures title.None? ==> out.name == ""
  {
    OutputData(if title.Some? then title.value else "", data)
  }

  /** The ranked rows of a table: its rows in key order, sorted, then
      numbered. */
  function Standings(t: Table): seq<RankingRow>
    requires forall k :: k in t.keys ==> k in t.records
  {
    Ranked(SortRows(TableRows(t)))
  }

  /** The league table of a season as a value: the team map of its rounds,
      ranked, under the season's name. */
  function LeagueTable(input: InputData): (out: OutputData)
    ensures |out.table| == |TeamMap(input.rounds, ByKey).keys| <= 2 * MatchCount(input.rounds)
    ensures input.name.Some? ==> out.name == input.name.value
    ensures input.name.None? ==> out.name == ""
  {
    var t := TeamMap(input.rounds, ByKey);
    AggregateWellFormed(AllMatches(input.rounds), ByKey);
    CreateOutput(Standings(t), input.name)
  }

  /** generateLeagueTable: the team map, ranked, put under the season's
      name. */
  method GenerateLeagueTable(input: InputData) returns (out: OutputData)
    ensures out == LeagueTable(input)
  {
    var keys, teams := CreateTeamMap(input.rounds);
    AggregateWellFormed(AllMatches(input.rounds), ByKey);
    MirrorsRows(keys, teams, TeamMap(input.rounds, ByKey));
    var rankingTable := SortByRank(keys, teams);
    out := CreateOutput(rankingTable, input.name);
  }

  // ---------------------------------------------------------------------
  // What the league table promises

  /** The season's rows are the standings of its (well-formed) team map. */
  lemma LeagueTableStandings(input: InputData)
    ensures WellFormed(TeamMap(input.rounds, ByKey))
    ensures LeagueTable(input).table == Standings(TeamMap(input.rounds, ByKey))
  {
    AggregateWellFormed(AllMatches(input.rounds), ByKey);
  }

  /** The ranked rows of a well-formed table: one per team, ranked 1..N
      from the top, best first, and teams that tie on all three criteria in
      key order. */
  lemma StandingsShape(t: Table)
    requires WellFormed(t)
    ensures |Standings(t)| == |t.keys|
    ensures forall i :: 0 <= i < |Standings(t)| ==> Standings(t)[i].rank == i + 1
    ensures Ordered(Standings(t))
    ensures forall c :: Tier(Unranked(Standings(t)), c) == Tier(TableRows(t), c)
  {
    RankedSortRows(TableRows(t));
  }

  /** Each team of a well-formed table has its row among the standings,
      and every row is some team's row. */
  lemma StandingsRows(t: Table, k: string)
    requires WellFormed(t)
    ensures k in t.records ==> exists i :: 0 <= i < |Standings(t)| && Unranked(Standings(t))[i] == RowOf(t.records[k])
    ensures forall i :: 0 <= i < |Standings(t)| ==> exists p :: 0 <= p < |t.keys| && Unranked(Standings(t))[i] == RowOf(t.records[t.keys[p]])
  {
    var rows := TableRows(t);
    RankedSortRows(rows);
    var u := Unranked(Standings(t));
    if k in t.records {
      var p :| 0 <= p < |t.keys| && t.keys[p] == k;
      assert rows[p] in multiset(u);
    }
    forall i | 0 <= i < |u|
      ensures exists p :: 0 <= p < |t.keys| && u[i] == RowOf(t.records[t.keys[p]])
    {
      assert u[i] in multiset(rows);
      var p :| 0 <= p < |rows| && rows[p] == u[i];
    }
  }

  /** Every ranked row of a well-formed table is sound: defeats never
      negative, wins, draws and defeats adding up to the games played,
      points between 0 and three per game. */
  lemma StandingsSound(t: Table)
    requires WellFormed(t)
    ensures forall i :: 0 <= i < |Standings(t)| ==>
      var row := Standings(t)[i];
      && row.defeats >= 0
      && row.wins + row.draws + row.defeats == row.gamesPlayed
      && row.goalDiff == row.goalsFor - row.goalsAgainst
      && row.points == 3 * row.wins + row.draws
      && 0 <= row.points <= 3 * row.gamesPlayed
  {
    var table := Standings(t);
    StandingsRows(t, "");
    forall i | 0 <= i < |table|
      ensures table[i].defeats >= 0 && table[i].wins + table[i].draws + table[i].defeats == table[i].gamesPlayed
      ensures table[i].goalDiff == table[i].goalsFor - table[i].goalsAgainst
      ensures table[i].points == 3 * table[i].wins + table[i].draws
      ensures 0 <= table[i].points <= 3 * table[i].gamesPlayed
    {
      var p :| 0 <= p < |t.keys| && Unranked(table)[i] == RowOf(t.records[t.keys[p]]);
      assert t.records[t.keys[p]].Consistent();
    }
  }

  /** The season's table: one row per distinct team key, ranked 1..N from
      the top. */
  lemma LeagueTableShape(input: InputData)
    ensures WellFormed(TeamMap(input.rounds, ByKey))
    ensures |LeagueTable(input).table| == |SeenIds(AllMatches(input.rounds), ByKey)|
    ensures forall i :: 0 <= i < |LeagueTable(input).table| ==> LeagueTable(input).table[i].rank == i + 1
  {
    LeagueTableStandings(input);
    KeyCount(AllMatches(input.rounds), ByKey);
    StandingsShape(TeamMap(input.rounds, ByKey));
  }

  /** The season's table lists the best team first, and teams that tie on
      all three criteria in the order their keys were first seen (see
      FirstSeenOrder and FirstSeenTogether for that order in terms of the
      matches). */
  lemma LeagueTableOrder(input: InputData)
    ensures WellFormed(TeamMap(input.rounds, ByKey))
    ensures Ordered(LeagueTable(input).table)
    ensures forall c :: Tier(Unranked(LeagueTable(input).table), c) == Tier(TableRows(TeamMap(input.rounds, ByKey)), c)
  {
    LeagueTableStandings(input);
    StandingsShape(TeamMap(input.rounds, ByKey));
  }

  /** No row of the season's table shows a negative number of defeats or
      more points than three per game played. */
  lemma LeagueTableSound(input: InputData)
    ensures forall i :: 0 <= i < |LeagueTable(input).table| ==>
      LeagueTable(input).table[i].defeats >= 0 &&
      LeagueTable(input).table[i].points <= 3 * LeagueTable(input).table[i].gamesPlayed
  {
    LeagueTableStandings(input);
    StandingsSound(TeamMap(input.rounds, ByKey));
  }

  /** Each team of a well-formed table has a ranked row showing its name
      and every one of its counters. */
  lemma StandingsTeam(t: Table, k: string) returns (i: nat)
    requires WellFormed(t) && k in t.records
    ensures i < |Standings(t)|
    ensures Standings(t)[i].name == t.records[k].name
    ensures forall fld :: RowField(Standings(t)[i], fld) == FieldOf(t.records[k], fld)
  {
    StandingsRows(t, k);
    var u := Unranked(Standings(t));
    i :| 0 <= i < |u| && u[i] == RowOf(t.records[k]);
    RowOfFields(t.records[k]);
    forall fld
      ensures RowField(Standings(t)[i], fld) == FieldOf(t.records[k], fld)
    {
      assert RowField(Standings(t)[i], fld) == RowField(u[i], fld);
    }
  }

  /** Each team of the season gets a row carrying the name its first match
      gave it and, for every counter, the sum over all matches of what each
      match contributed to that team. */
  lemma LeagueTableTeam(input: InputData, k: string, j: nat)
    requires j < |AllMatches(input.rounds)|
    requires Mentions(AllMatches(input.rounds)[j], ByKey, k)
    requires !MentionedBy(AllMatches(input.rounds)[..j], ByKey, k)
    ensures exists i :: 0 <= i < |LeagueTable(input).table| && TeamRow(LeagueTable(input).table[i], AllMatches(input.rounds), j, k)
  {
    var ms := AllMatches(input.rounds);
    var t := TeamMap(input.rounds, ByKey);
    AggregateWellFormed(ms, ByKey);
    TeamRecord(ms, ByKey, k, j);
    var i := StandingsTeam(t, k);
    assert LeagueTable(input).table == Standings(t);
    assert TeamRow(Standings(t)[i], ms, j, k);
  }

  /** `row` is team `k`'s row: named by match `j`, each counter the total
      the matches `ms` contribute to `k`. */
  ghost predicate TeamRow(row: RankingRow, ms: seq<Match>, j: nat, k: string)
    requires j < |ms|
  {
    && row.name == NameIn(ms[j], ByKey, k)
    && forall fld :: RowField(row, fld) == Total(ms, ByKey, k, fld)
  }
}
