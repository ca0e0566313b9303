/** Input shapes shared by both copies of the generator: teams, matches and
    rounds as they arrive from the season file, and the choice of field that
    identifies a team. */
module Fixtures {

  datatype Option<T> = None | Some(value: T)

  /** A team reference inside a match. */
  datatype Team = Team(key: string, name: string, code: string)

  /** A played match; the date is not used by the aggregation and is not kept.
      Scores are non-negative whole numbers. */
  datatype Match = Match(team1: Team, team2: Team, score1: nat, score2: nat)

  /** A matchday; its name is not used and is not kept. */
  datatype Round = Round(matches: seq<Match>)

  /** The season file: its (possibly absent) name and its rounds. */
  datatype InputData = InputData(name: Option<string>, rounds: seq<Round>)

  /** Which team field serves as the team map's key: the generator uses
      `key`, the earlier script uses `code`. */
  datatype KeyField = ByKey | ByCode

  function Id(t: Team, f: KeyField): string
  {
    match f
    case ByKey => t.key
    case ByCode => t.code
  }

  /** Every match of every round, rounds in order and matches in order
      within each round: the order in which the nested loops visit them. */
  function AllMatches(rounds: seq<Round>): seq<Match>
    decreases |rounds|
  {
    if rounds == [] then []
    else AllMatches(rounds[..|rounds| - 1]) + rounds[|rounds| - 1].matches
  }

  /** The total number of matches over all rounds. */
  function MatchCount(rounds: seq<Round>): nat
    decreases |rounds|
  {
    if rounds == [] then 0
    else MatchCount(rounds[..|rounds| - 1]) + |rounds[|rounds| - 1].matches|
  }

  lemma {:induction false} AllMatchesCount(rounds: seq<Round>)
    ensures |AllMatches(rounds)| == MatchCount(rounds)
    decreases |rounds|
  {
    if rounds != [] {
      AllMatchesCount(rounds[..|rounds| - 1]);
    }
  }

  /** Visiting one more round appends exactly its matches. */
  lemma AllMatchesSnoc(rounds: seq<Round>, r: nat)
    requires r < |rounds|
    ensures AllMatches(rounds[..r + 1]) == AllMatches(rounds[..r]) + rounds[r].matches
  {
    assert rounds[..r + 1][..r] == rounds[..r];
  }

  /** Whether team identifier `k` plays in match `m`. */
  predicate Mentions(m: Match, f: KeyField, k: string)
  {
    Id(m.team1, f) == k || Id(m.team2, f) == k
  }

  /** Whether some match of `ms` mentions `k`. */
  predicate MentionedBy(ms: seq<Match>, f: KeyField, k: string)
  {
    exists i :: 0 <= i < |ms| && Mentions(ms[i], f, k)
  }

  lemma MentionedBySnoc(ms: seq<Match>, f: KeyField, k: string)
    requires ms != []
    ensures MentionedBy(ms, f, k) <==> MentionedBy(ms[..|ms| - 1], f, k) || Mentions(ms[|ms| - 1], f, k)
  {
    var init := ms[..|ms| - 1];
    if MentionedBy(init, f, k) {
      var i :| 0 <= i < |init| && Mentions(init[i], f, k);
      assert ms[i] == init[i];
    }
    if MentionedBy(ms, f, k) {
      var i :| 0 <= i < |ms| && Mentions(ms[i], f, k);
      if i < |init| {
        assert ms[i] == init[i];
      }
    }
  }

  /** The display name that match `m` gives to `k`; team1 is looked at first. */
  function NameIn(m: Match, f: KeyField, k: string): string
  {
    if Id(m.team1, f) == k then m.team1.name else m.team2.name
  }
}
