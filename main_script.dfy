/** The earlier standalone script: its own copy of the TeamData class, with
    `losses` where the generator has `defeats`, and a team map keyed by the
    three-letter team code instead of the team key. It stops after building
    the map. */
module MainScript {
  import opened Fixtures
  import opened Tally
  import opened Aggregation

  /** One team's running totals, updated in place by each match. */
  class TeamData {
    var name: string
    var gamesPlayed: nat
    var wins: nat
    var draws: nat
    var goalsFor: nat
    var goalsAgainst: nat

    /** The stored fields as a value. */
    function Stats(): Record
      reads this
    {
      Record(name, gamesPlayed, wins, draws, goalsFor, goalsAgainst)
    }

    ghost predicate Valid()
      reads this
    {
      Stats().Consistent()
    }

    constructor (name: string)
      ensures Stats() == Zero(name) && Valid()
    {
      this.name := name;
      gamesPlayed := 0;
      wins := 0;
      draws := 0;
      goalsFor := 0;
      goalsAgainst := 0;
    }

    /** Counts one more match scored `goalsFor` to `goalsAgainst` from this
        team's side: a draw or a win is counted, a loss is left to be
        derived; the name is never touched. */
    method AddMatch(goalsFor: nat, goalsAgainst: nat)
      modifies this
      ensures Stats() == old(Stats()).WithMatch(goalsFor, goalsAgainst)
      ensures old(Valid()) ==> Valid()
    {
      if goalsFor == goalsAgainst {
        draws := draws + 1;
      } else if goalsFor > goalsAgainst {
        wins := wins + 1;
      }
      this.goalsFor := this.goalsFor + goalsFor;
      this.goalsAgainst := this.goalsAgainst + goalsAgainst;
      gamesPlayed := gamesPlayed + 1;
    }

    function GoalDiff(): (d: int)
      reads this
      ensures d + goalsAgainst == goalsFor
    {
      Stats().GoalDiff()
    }

    function Losses(): (l: int)
      reads this
      ensures wins + draws + l == gamesPlayed
      ensures Valid() <==> l >= 0
    {
      Stats().Defeats()
    }

    function Points(): (p: int)
      reads this
      ensures p == 3 * wins + draws
      ensures Valid() ==> 0 <= p <= 3 * gamesPlayed
    {
      Stats().Points()
    }
  }

  /** Distinct codes never share a TeamData object. */
  ghost predicate Separate(teams: map<string, TeamData>)
  {
    forall a, b :: a in teams && b in teams && a != b ==> teams[a] != teams[b]
  }

  /** The objects of the map hold exactly the value `t`. */
  ghost predicate Mirrors(keys: seq<string>, teams: map<string, TeamData>, t: Table)
    reads teams.Values
  {
    && keys == t.keys
    && teams.Keys == t.records.Keys
    && forall k :: k in teams ==> teams[k].Stats() == t.records[k]
  }

  /** A team's record is created the first time its code is seen, named
      `name`; a code already present keeps its object untouched. */
  method EnsureTeam(keys0: seq<string>, teams0: map<string, TeamData>, code: string, name: string, ghost t: Table)
    returns (keys: seq<string>, teams: map<string, TeamData>)
    requires Mirrors(keys0, teams0, t) && Separate(teams0)
    ensures Mirrors(keys, teams, Admit(t, code, name))
    ensures Separate(teams)
    ensures forall k :: k in teams0 ==> k in teams && teams[k] == teams0[k]
    ensures forall k :: k in teams && k !in teams0 ==> fresh(teams[k])
  {
    keys, teams := keys0, teams0;
    if code !in teams {
      var team := new TeamData(name);
      assert forall k :: k in teams0 ==> teams0[k] != team;
      teams := teams[code := team];
      keys := keys + [code];
    }
    ghost var a := Admit(t, code, name);
    forall k | k in teams
      ensures teams[k].Stats() == a.records[k]
    {
      if k != code || code in t.records {
        assert k in t.records;
      }
    }
  }

  /** `map[code].addMatch(goalsFor, goalsAgainst)`: the one object of
      `code` changes, every other team keeps its totals. */
  method CreditTeam(keys: seq<string>, teams: map<string, TeamData>, code: string, goalsFor: nat, goalsAgainst: nat, ghost t: Table)
    requires Mirrors(keys, teams, t) && Separate(teams) && code in teams
    modifies teams[code]
    ensures Mirrors(keys, teams, Credit(t, code, goalsFor, goalsAgainst))
  {
    teams[code].AddMatch(goalsFor, goalsAgainst);
    forall k | k in teams
      ensures teams[k].Stats() == Credit(t, code, goalsFor, goalsAgainst).records[k]
    {
      if k != code {
        assert teams[k] != teams[code];
      }
    }
  }

  /** The first half of the inner loop's body: both teams of `m` get an
      object if they have none, team1 first. */
  method AdmitBoth(keys0: seq<string>, teams0: map<string, TeamData>, m: Match, ghost t: Table)
    returns (keys: seq<string>, teams: map<string, TeamData>)
    requires Mirrors(keys0, teams0, t) && Separate(teams0)
    ensures Mirrors(keys, teams, Admit(Admit(t, m.team1.code, m.team1.name), m.team2.code, m.team2.name))
    ensures Separate(teams)
    ensures forall k :: k in teams0 ==> k in teams && teams[k] == teams0[k]
    ensures forall k :: k in teams && k !in teams0 ==> fresh(teams[k])
  {
    keys, teams := EnsureTeam(keys0, teams0, m.team1.code, m.team1.name, t);
    keys, teams := EnsureTeam(keys, teams, m.team2.code, m.team2.name, Admit(t, m.team1.code, m.team1.name));
  }

  /** The second half: team1 is credited with the match as it scored it,
      then team2 with the scores the other way round. */
  method CreditBoth(keys: seq<string>, teams: map<string, TeamData>, m: Match, ghost a: Table)
    requires Mirrors(keys, teams, a) && Separate(teams)
    requires m.team1.code in teams && m.team2.code in teams
    modifies teams[m.team1.code], teams[m.team2.code]
    ensures Mirrors(keys, teams, Credit(Credit(a, m.team1.code, m.score1, m.score2), m.team2.code, m.score2, m.score1))
  {
    CreditTeam(keys, teams, m.team1.code, m.score1, m.score2, a);
    CreditTeam(keys, teams, m.team2.code, m.score2, m.score1, Credit(a, m.team1.code, m.score1, m.score2));
  }

  /** The body of the inner loop, for one match `m`. */
  method RecordMatch(keys0: seq<string>, teams0: map<string, TeamData>, m: Match, ghost t: Table)
    returns (keys: seq<string>, teams: map<string, TeamData>)
    requires Mirrors(keys0, teams0, t) && Separate(teams0)
    modifies teams0.Values
    ensures Mirrors(keys, teams, Step(t, m, ByCode))
    ensures Separate(teams)
    ensures forall k :: k in teams0 ==> k in teams && teams[k] == teams0[k]
    ensures forall k :: k in teams && k !in teams0 ==> fresh(teams[k])
  {
    StepStages(t, m, ByCode, m.team1.code, m.team2.code);
    keys, teams := AdmitBoth(keys0, teams0, m, t);
    CreditBoth(keys, teams, m, Admit(Admit(t, m.team1.code, m.team1.name), m.team2.code, m.team2.name));
  }

  /** One pass of createTeamMap's outer loop: the round's matches recorded
      in order, starting from the map of the matches `done` before it. */
  method RecordRound(keys0: seq<string>, teams0: map<string, TeamData>, matches: seq<Match>, ghost done: seq<Match>)
    returns (keys: seq<string>, teams: map<string, TeamData>)
    requires Mirrors(keys0, teams0, Aggregate(done, ByCode)) && Separate(teams0)
    modifies teams0.Values
    ensures Mirrors(keys, teams, Aggregate(done + matches, ByCode))
    ensures Separate(teams)
    ensures forall k :: k in teams ==> teams[k] in teams0.Values || fresh(teams[k])
  {
    keys, teams := keys0, teams0;
    ghost var table := Aggregate(done, ByCode);
    assert done + matches[..0] == done;
    for i := 0 to |matches|
      invariant table == Aggregate(done + matches[..i], ByCode)
      invariant Mirrors(keys, teams, table)
      invariant Separate(teams)
      invariant forall k :: k in teams ==> teams[k] in teams0.Values || fresh(teams[k])
    {
      AggregateNext(done, matches, i, ByCode);
      ghost var before := teams;
      keys, teams := RecordMatch(keys, teams, matches[i], table);
      forall k | k in teams
        ensures teams[k] in teams0.Values || fresh(teams[k])
      {
        if k in before {
          assert teams[k] == before[k];
        }
      }
      table := Step(table, matches[i], ByCode);
    }
    assert matches[..|matches|] == matches;
  }

  /** The script's createTeamMap: the same walk as the generator's, keyed by
      team code, so the map ends up holding the value model's team map by
      code. */
  method CreateTeamMap(rounds: seq<Round>) returns (keys: seq<string>, teams: map<string, TeamData>)
    ensures Mirrors(keys, teams, TeamMap(rounds, ByCode))
    ensures Separate(teams)
    ensures forall k :: k in teams ==> fresh(teams[k])
  {
    keys, teams := [], map[];
    for r := 0 to |rounds|
      invariant Mirrors(keys, teams, Aggregate(AllMatches(rounds[..r]), ByCode))
      invariant Separate(teams)
      invariant forall k :: k in teams ==> fresh(teams[k])
    {
      keys, teams := RecordRound(keys, teams, rounds[r].matches, AllMatches(rounds[..r]));
      AllMatchesSnoc(rounds, r);
    }
    assert rounds[..|rounds|] == rounds;
  }

  /** What the script's map promises: one entry per distinct code seen,
      no team with negative losses, and games played adding up to twice the
      number of matches. */
  lemma ScriptTeamMap(rounds: seq<Round>)
    ensures |TeamMap(rounds, ByCode).keys| == |SeenIds(AllMatches(rounds), ByCode)|
    ensures forall k :: k in TeamMap(rounds, ByCode).records ==> TeamMap(rounds, ByCode).records[k].Defeats() >= 0
    ensures Sum(TeamMap(rounds, ByCode), GamesPlayed) == 2 * MatchCount(rounds)
  {
    var ms := AllMatches(rounds);
    AggregateWellFormed(ms, ByCode);
    KeyCount(ms, ByCode);
    AggregateSums(ms, ByCode);
    AllMatchesCount(rounds);
  }

  // ---------------------------------------------------------------------
  // Keying by code against keying by key

  /** `u` is `t` with every identifier renamed by `rho`: the same order,
      the same records, and no other entries. */
  ghost predicate Renamed(t: Table, u: Table, rho: string -> string)
  {
    && |u.keys| == |t.keys|
    && (forall i :: 0 <= i < |t.keys| ==> u.keys[i] == rho(t.keys[i]))
    && (forall k :: k in t.records ==> rho(k) in u.records && u.records[rho(k)] == t.records[k])
    && (forall c :: c in u.records ==> exists k :: k in t.records && rho(k) == c)
  }

  /** In match `m`, each team's code is `rho` of its key. */
  predicate CodedBy(m: Match, rho: string -> string)
  {
    m.team1.code == rho(m.team1.key) && m.team2.code == rho(m.team2.key)
  }

  lemma AdmitRenamed(t: Table, u: Table, rho: string -> string, k: string, name: string)
    requires Renamed(t, u, rho)
    requires forall x, y :: rho(x) == rho(y) ==> x == y
    ensures Renamed(Admit(t, k, name), Admit(u, rho(k), name), rho)
  {
    if k in t.records {
    } else {
      assert forall x :: x in t.records ==> rho(x) != rho(k);
      assert rho(k) !in u.records;
      var t', u' := Admit(t, k, name), Admit(u, rho(k), name);
      forall c | c in u'.records
        ensures exists x :: x in t'.records && rho(x) == c
      {
        if c != rho(k) {
          var x :| x in t.records && rho(x) == c;
          assert x in t'.records;
        } else {
          assert k in t'.records;
        }
      }
    }
  }

  lemma CreditRenamed(t: Table, u: Table, rho: string -> string, k: string, gf: nat, ga: nat)
    requires Renamed(t, u, rho) && k in t.records
    requires forall x, y :: rho(x) == rho(y) ==> x == y
    ensures rho(k) in u.records
    ensures Renamed(Credit(t, k, gf, ga), Credit(u, rho(k), gf, ga), rho)
  {
    var t', u' := Credit(t, k, gf, ga), Credit(u, rho(k), gf, ga);
    forall c | c in u'.records
      ensures exists x :: x in t'.records && rho(x) == c
    {
      var x :| x in t.records && rho(x) == c;
      assert x in t'.records;
    }
  }

  lemma AdmitBothRenamed(t: Table, u: Table, rho: string -> string, m: Match)
    requires Renamed(t, u, rho)
    requires forall x, y :: rho(x) == rho(y) ==> x == y
    ensures var k1, k2 := m.team1.key, m.team2.key;
            Renamed(Admit(Admit(t, k1, m.team1.name), k2, m.team2.name),
                    Admit(Admit(u, rho(k1), m.team1.name), rho(k2), m.team2.name), rho)
  {
    var k1, k2 := m.team1.key, m.team2.key;
    AdmitRenamed(t, u, rho, k1, m.team1.name);
    AdmitRenamed(Admit(t, k1, m.team1.name), Admit(u, rho(k1), m.team1.name), rho, k2, m.team2.name);
  }

  lemma CreditBothRenamed(t: Table, u: Table, rho: string -> string, m: Match)
    requires Renamed(t, u, rho) && m.team1.key in t.records && m.team2.key in t.records
    requires forall x, y :: rho(x) == rho(y) ==> x == y
    ensures var k1, k2 := m.team1.key, m.team2.key;
            rho(k1) in u.records && rho(k2) in u.records &&
            Renamed(Credit(Credit(t, k1, m.score1, m.score2), k2, m.score2, m.score1),
                    Credit(Credit(u, rho(k1), m.score1, m.score2), rho(k2), m.score2, m.score1), rho)
  {
    var k1, k2 := m.team1.key, m.team2.key;
    CreditRenamed(t, u, rho, k1, m.score1, m.score2);
    CreditRenamed(Credit(t, k1, m.score1, m.score2), Credit(u, rho(k1), m.score1, m.score2), rho, k2, m.score2, m.score1);
  }

  lemma StepRenamed(t: Table, u: Table, rho: string -> string, m: Match)
    requires Renamed(t, u, rho) && CodedBy(m, rho)
    requires forall x, y :: rho(x) == rho(y) ==> x == y
    ensures Renamed(Step(t, m, ByKey), Step(u, m, ByCode), rho)
  {
    var k1, k2 := m.team1.key, m.team2.key;
    StepStages(t, m, ByKey, k1, k2);
    StepStages(u, m, ByCode, rho(k1), rho(k2));
    AdmitBothRenamed(t, u, rho, m);
    CreditBothRenamed(Admit(Admit(t, k1, m.team1.name), k2, m.team2.name),
                      Admit(Admit(u, rho(k1), m.team1.name), rho(k2), m.team2.name), rho, m);
  }

  /** When every code is an injective renaming `rho` of its key, the
      script's map is the generator's map renamed: the same teams with the
      same totals, first seen in the same order. */
  lemma {:induction false} CodeMapRenamesKeyMap(ms: seq<Match>, rho: string -> string)
    requires forall i :: 0 <= i < |ms| ==> CodedBy(ms[i], rho)
    requires forall x, y :: rho(x) == rho(y) ==> x == y
    ensures Renamed(Aggregate(ms, ByKey), Aggregate(ms, ByCode), rho)
    decreases |ms|
  {
    if ms != [] {
      var init := ms[..|ms| - 1];
      assert forall i :: 0 <= i < |init| ==> init[i] == ms[i];
      CodeMapRenamesKeyMap(init, rho);
      StepRenamed(Aggregate(init, ByKey), Aggregate(init, ByCode), rho, ms[|ms| - 1]);
    }
  }
}
