/** The team map that createTeamMap builds, as a value: the team
    identifiers in first-seen order and one record per identifier. The
    functions here are the reference semantics the imperative loops are
    proved against; the lemmas are what the aggregation promises. */
module Aggregation {
  import opened Fixtures
  import opened Tally

  datatype Table = Table(keys: seq<string>, records: map<string, Record>)

  const Empty: Table := Table([], map[])

  /** No identifier twice, exactly the recorded identifiers in `keys`, and
      every record consistent. */
  ghost predicate WellFormed(t: Table)
  {
    && (forall i, j :: 0 <= i < j < |t.keys| ==> t.keys[i] != t.keys[j])
    && (forall k :: k in t.records <==> k in t.keys)
    && (forall k :: k in t.records ==> t.records[k].Consistent())
  }

  /** The first sighting of `k`: a zeroed record named `name`, appended to
      the key order. A known identifier is left alone. */
  function Admit(t: Table, k: string, name: string): (r: Table)
    ensures k in r.records
    ensures r.records.Keys == t.records.Keys + {k}
    ensures forall x :: x in t.records ==> r.records[x] == t.records[x]
    ensures k in t.records ==> r.keys == t.keys
    ensures k !in t.records ==> r.keys == t.keys + [k] && r.records[k] == Zero(name)
  {
    if k in t.records then t
    else Table(t.keys + [k], t.records[k := Zero(name)])
  }

  lemma AdmitWellFormed(t: Table, k: string, name: string)
    requires WellFormed(t)
    ensures WellFormed(Admit(t, k, name))
  {
    if k !in t.records {
      var r := Admit(t, k, name);
      assert forall i :: 0 <= i < |t.keys| ==> r.keys[i] == t.keys[i];
      assert forall x :: x in r.keys <==> x in t.keys || x == k;
    }
  }

  /** One addMatch call on the record of `k`. */
  function Credit(t: Table, k: string, gf: nat, ga: nat): (r: Table)
    requires k in t.records
    ensures r.keys == t.keys && r.records.Keys == t.records.Keys
    ensures r.records[k] == t.records[k].WithMatch(gf, ga)
    ensures forall x :: x in t.records && x != k ==> r.records[x] == t.records[x]
  {
    Table(t.keys, t.records[k := t.records[k].WithMatch(gf, ga)])
  }

  lemma CreditWellFormed(t: Table, k: string, gf: nat, ga: nat)
    requires WellFormed(t) && k in t.records
    ensures WellFormed(Credit(t, k, gf, ga))
  {
  }

  /** One iteration of the inner loop: admit both teams (team1 first), then
      credit team1 with (score1, score2) and team2 with (score2, score1). */
  function Step(t: Table, m: Match, f: KeyField): (r: Table)
    ensures r.records.Keys == t.records.Keys + {Id(m.team1, f), Id(m.team2, f)}
  {
    var k1, k2 := Id(m.team1, f), Id(m.team2, f);
    var admitted := Admit(Admit(t, k1, m.team1.name), k2, m.team2.name);
    Credit(Credit(admitted, k1, m.score1, m.score2), k2, m.score2, m.score1)
  }

  lemma StepWellFormed(t: Table, m: Match, f: KeyField)
    requires WellFormed(t)
    ensures WellFormed(Step(t, m, f))
  {
    var k1, k2 := Id(m.team1, f), Id(m.team2, f);
    var a1 := Admit(t, k1, m.team1.name);
    var a2 := Admit(a1, k2, m.team2.name);
    AdmitWellFormed(t, k1, m.team1.name);
    AdmitWellFormed(a1, k2, m.team2.name);
    CreditWellFormed(a2, k1, m.score1, m.score2);
    CreditWellFormed(Credit(a2, k1, m.score1, m.score2), k2, m.score2, m.score1);
  }

  /** Step as its four stages, for identifiers `k1` and `k2` known to be
      the two teams' identifiers. */
  lemma StepStages(t: Table, m: Match, f: KeyField, k1: string, k2: string)
    requires Id(m.team1, f) == k1 && Id(m.team2, f) == k2
    ensures var a := Admit(Admit(t, k1, m.team1.name), k2, m.team2.name);
            Step(t, m, f) == Credit(Credit(a, k1, m.score1, m.score2), k2, m.score2, m.score1)
  {
  }

  /** A match changes the records of the teams that play in it and of no
      other team; a team seen for the first time is named as the match names
      it; no existing team is renamed; identifiers are only ever appended to
      the first-seen order. */
  lemma StepFrame(t: Table, m: Match, f: KeyField, x: string)
    ensures x in t.records && !Mentions(m, f, x) ==> Step(t, m, f).records[x] == t.records[x]
    ensures x in t.records ==> Step(t, m, f).records[x].name == t.records[x].name
    ensures x !in t.records && Mentions(m, f, x) ==> Step(t, m, f).records[x].name == NameIn(m, f, x)
    ensures |t.keys| <= |Step(t, m, f).keys| && Step(t, m, f).keys[..|t.keys|] == t.keys
  {
    var k1, k2 := Id(m.team1, f), Id(m.team2, f);
    var a1 := Admit(t, k1, m.team1.name);
    var a2 := Admit(a1, k2, m.team2.name);
    assert a1.keys[..|t.keys|] == t.keys;
    assert a2.keys[..|t.keys|] == t.keys;
  }

  /** The team map after visiting `ms` in order, starting from `{}`; each
      match brings at most its two teams. */
  function Aggregate(ms: seq<Match>, f: KeyField): (r: Table)
    ensures |r.keys| <= 2 * |ms|
    decreases |ms|
  {
    if ms == [] then Empty
    else
      StepGrowth(Aggregate(ms[..|ms| - 1], f), ms[|ms| - 1], f);
      Step(Aggregate(ms[..|ms| - 1], f), ms[|ms| - 1], f)
  }

  /** A match appends at most two identifiers to the key order. */
  lemma StepGrowth(t: Table, m: Match, f: KeyField)
    ensures |Step(t, m, f).keys| <= |t.keys| + 2
  {
    var a1 := Admit(t, Id(m.team1, f), m.team1.name);
    assert |a1.keys| <= |t.keys| + 1;
    assert |Admit(a1, Id(m.team2, f), m.team2.name).keys| <= |a1.keys| + 1;
  }

  /** Whatever the matches, the team map is well formed: no identifier
      twice, the key order lists exactly the recorded teams, and no team has
      more wins and draws than games. */
  lemma {:induction false} AggregateWellFormed(ms: seq<Match>, f: KeyField)
    ensures WellFormed(Aggregate(ms, f))
    decreases |ms|
  {
    if ms != [] {
      AggregateWellFormed(ms[..|ms| - 1], f);
      StepWellFormed(Aggregate(ms[..|ms| - 1], f), ms[|ms| - 1], f);
    }
  }

  /** The map holds exactly the identifiers that some match mentions. */
  lemma {:induction false} AggregateKeys(ms: seq<Match>, f: KeyField, k: string)
    ensures k in Aggregate(ms, f).records <==> MentionedBy(ms, f, k)
    decreases |ms|
  {
    if ms != [] {
      AggregateKeys(ms[..|ms| - 1], f, k);
      MentionedBySnoc(ms, f, k);
    }
  }

  /** Appending a match is one more Step. */
  lemma AggregateSnoc(ms: seq<Match>, m: Match, f: KeyField)
    ensures Aggregate(ms + [m], f) == Step(Aggregate(ms, f), m, f)
  {
    assert (ms + [m])[..|ms|] == ms;
  }

  /** The inner loop's view: one more match of the current round. */
  lemma AggregateNext(done: seq<Match>, matches: seq<Match>, i: nat, f: KeyField)
    requires i < |matches|
    ensures Aggregate(done + matches[..i + 1], f) == Step(Aggregate(done + matches[..i], f), matches[i], f)
  {
    assert done + matches[..i + 1] == (done + matches[..i]) + [matches[i]];
    AggregateSnoc(done + matches[..i], matches[i], f);
  }

  /** The team map of the matches of all rounds, round by round; it holds
      at most two teams per match played. */
  function TeamMap(rounds: seq<Round>, f: KeyField): (r: Table)
    ensures |r.keys| <= 2 * MatchCount(rounds)
  {
    AllMatchesCount(rounds);
    Aggregate(AllMatches(rounds), f)
  }

  // ---------------------------------------------------------------------
  // First-seen order and names

  /** Later matches only append identifiers to the first-seen order: the
      order after the first `n` matches is a prefix of the final order. */
  lemma {:induction false} AggregateExtends(ms: seq<Match>, n: nat, f: KeyField)
    requires n <= |ms|
    ensures |Aggregate(ms[..n], f).keys| <= |Aggregate(ms, f).keys|
    ensures Aggregate(ms, f).keys[..|Aggregate(ms[..n], f).keys|] == Aggregate(ms[..n], f).keys
    decreases |ms|
  {
    if n == |ms| {
      assert ms[..n] == ms;
    } else {
      var init := ms[..|ms| - 1];
      assert init[..n] == ms[..n];
      AggregateExtends(init, n, f);
      StepFrame(Aggregate(init, f), ms[|ms| - 1], f, "");
      PrefixTrans(Aggregate(ms[..n], f).keys, Aggregate(init, f).keys, Aggregate(ms, f).keys);
    }
  }

  /** Teams enter the key order in the order of their first matches: if
      match `i` mentions `k` and `k2` is first mentioned later, by match `j`,
      then `k` comes before `k2`. */
  lemma FirstSeenOrder(ms: seq<Match>, f: KeyField, k: string, i: nat, k2: string, j: nat)
    requires i < j < |ms|
    requires Mentions(ms[i], f, k)
    requires Mentions(ms[j], f, k2) && !MentionedBy(ms[..j], f, k2)
    ensures exists p, q :: 0 <= p < q < |Aggregate(ms, f).keys| && Aggregate(ms, f).keys[p] == k && Aggregate(ms, f).keys[q] == k2
  {
    var upto, all := Aggregate(ms[..j], f).keys, Aggregate(ms, f).keys;
    assert k in upto && k2 !in upto by {
      assert ms[..j][i] == ms[i];
      KeysMentioned(ms[..j], f, k);
      KeysMentioned(ms[..j], f, k2);
    }
    assert |upto| <= |all| && all[..|upto|] == upto by {
      AggregateExtends(ms, j, f);
    }
    assert k2 in all by {
      KeysMentioned(ms, f, k2);
    }
    PrefixOrder(upto, all, k, k2);
  }

  /** The two teams of a match that introduces both enter the key order
      in the match's order: team1, then team2. */
  lemma FirstSeenTogether(ms: seq<Match>, f: KeyField, j: nat)
    requires j < |ms| && Id(ms[j].team1, f) != Id(ms[j].team2, f)
    requires !MentionedBy(ms[..j], f, Id(ms[j].team1, f)) && !MentionedBy(ms[..j], f, Id(ms[j].team2, f))
    ensures exists p :: 0 <= p && p + 1 < |Aggregate(ms, f).keys|
                        && Aggregate(ms, f).keys[p] == Id(ms[j].team1, f) && Aggregate(ms, f).keys[p + 1] == Id(ms[j].team2, f)
  {
    IntroducesBoth(ms, f, j);
    AggregateExtends(ms, j + 1, f);
    PrefixPair(Aggregate(ms[..j], f).keys, Aggregate(ms[..j + 1], f).keys, Aggregate(ms, f).keys,
               Id(ms[j].team1, f), Id(ms[j].team2, f));
  }

  /** Match `j`, mentioning two teams no earlier match mentions, appends
      them to the key order, team1 first. */
  lemma IntroducesBoth(ms: seq<Match>, f: KeyField, j: nat)
    requires j < |ms| && Id(ms[j].team1, f) != Id(ms[j].team2, f)
    requires !MentionedBy(ms[..j], f, Id(ms[j].team1, f)) && !MentionedBy(ms[..j], f, Id(ms[j].team2, f))
    ensures Aggregate(ms[..j + 1], f).keys == Aggregate(ms[..j], f).keys + [Id(ms[j].team1, f), Id(ms[j].team2, f)]
  {
    var t := Aggregate(ms[..j], f);
    assert Id(ms[j].team1, f) !in t.records && Id(ms[j].team2, f) !in t.records by {
      AggregateKeys(ms[..j], f, Id(ms[j].team1, f));
      AggregateKeys(ms[..j], f, Id(ms[j].team2, f));
    }
    assert Aggregate(ms[..j + 1], f) == Step(t, ms[j], f) by {
      AggregatePrefixStep(ms, j, f);
    }
    StepBothNew(t, ms[j], f);
  }

  /** The matches up to `j` inclusive are those before `j` and one Step. */
  lemma AggregatePrefixStep(ms: seq<Match>, j: nat, f: KeyField)
    requires j < |ms|
    ensures Aggregate(ms[..j + 1], f) == Step(Aggregate(ms[..j], f), ms[j], f)
  {
    assert ms[..j + 1][..j] == ms[..j];
  }

  lemma PrefixPair(u: seq<string>, v: seq<string>, w: seq<string>, k1: string, k2: string)
    requires v == u + [k1, k2] && |v| <= |w| && w[..|v|] == v
    ensures exists p :: 0 <= p && p + 1 < |w| && w[p] == k1 && w[p + 1] == k2
  {
    assert w[|u|] == v[|u|] && w[|u| + 1] == v[|u| + 1];
  }

  /** A match between two unseen teams appends both, team1 first. */
  lemma StepBothNew(t: Table, m: Match, f: KeyField)
    requires Id(m.team1, f) !in t.records && Id(m.team2, f) !in t.records && Id(m.team1, f) != Id(m.team2, f)
    ensures Step(t, m, f).keys == t.keys + [Id(m.team1, f), Id(m.team2, f)]
  {
    StepStages(t, m, f, Id(m.team1, f), Id(m.team2, f));
  }

  /** An identifier is in the key order exactly when some match mentions it. */
  lemma KeysMentioned(ms: seq<Match>, f: KeyField, k: string)
    ensures k in Aggregate(ms, f).keys <==> MentionedBy(ms, f, k)
  {
    AggregateKeys(ms, f, k);
    AggregateWellFormed(ms, f);
  }

  /** What a prefix holds comes before what only the rest holds. */
  lemma PrefixOrder(u: seq<string>, v: seq<string>, k: string, k2: string)
    requires |u| <= |v| && v[..|u|] == u
    requires k in u && k2 !in u && k2 in v
    ensures exists p, q :: 0 <= p < q < |v| && v[p] == k && v[q] == k2
  {
    var p :| 0 <= p < |u| && u[p] == k;
    var q :| 0 <= q < |v| && v[q] == k2;
    assert forall x :: 0 <= x < |u| ==> v[x] == u[x];
    assert v[p] == u[p];
  }

  lemma PrefixTrans(t: seq<string>, u: seq<string>, v: seq<string>)
    requires |t| <= |u| <= |v| && u[..|t|] == t && v[..|u|] == u
    ensures v[..|t|] == t
  {
    assert v[..|t|] == u[..|t|];
  }

  /** Later matches never drop or rename a team: a team recorded after the
      first `n` matches is still recorded, under the same name, after all of
      them. */
  lemma {:induction false} AggregateKeepsName(ms: seq<Match>, n: nat, f: KeyField, k: string)
    requires n <= |ms| && k in Aggregate(ms[..n], f).records
    ensures k in Aggregate(ms, f).records
    ensures Aggregate(ms, f).records[k].name == Aggregate(ms[..n], f).records[k].name
    decreases |ms|
  {
    if n == |ms| {
      assert ms[..n] == ms;
    } else {
      var init := ms[..|ms| - 1];
      assert init[..n] == ms[..n];
      AggregateKeepsName(init, n, f, k);
      StepFrame(Aggregate(init, f), ms[|ms| - 1], f, k);
    }
  }

  /** A team's name is the one given by the first match that mentions it;
      later matches never overwrite it. */
  lemma {:induction false} FirstSightingName(ms: seq<Match>, f: KeyField, k: string, i: nat)
    requires i < |ms| && Mentions(ms[i], f, k) && !MentionedBy(ms[..i], f, k)
    ensures k in Aggregate(ms, f).records
    ensures Aggregate(ms, f).records[k].name == NameIn(ms[i], f, k)
    decreases |ms|
  {
    var init := ms[..|ms| - 1];
    if i == |ms| - 1 {
      assert ms[..i] == init;
      AggregateKeys(init, f, k);
      StepFrame(Aggregate(init, f), ms[i], f, k);
    } else {
      assert init[i] == ms[i] && init[..i] == ms[..i];
      FirstSightingName(init, f, k, i);
      StepFrame(Aggregate(init, f), ms[|ms| - 1], f, k);
    }
  }

  // ---------------------------------------------------------------------
  // Per-team totals against an independent reference

  /** The value a counter of `k` has in `recs`, zero for an unseen team. */
  function Weight(recs: map<string, Record>, k: string, fld: Field): int
  {
    if k in recs then FieldOf(recs[k], fld) else 0
  }

  /** What match `m` contributes to a counter of team `k`: one addMatch per
      side `k` plays (both sides when a team meets itself). */
  function Earned(m: Match, f: KeyField, k: string, fld: Field): int
  {
    (if Id(m.team1, f) == k then Gain(m.score1, m.score2, fld) else 0)
    + (if Id(m.team2, f) == k then Gain(m.score2, m.score1, fld) else 0)
  }

  /** A counter of `k` summed directly over the matches. */
  function Total(ms: seq<Match>, f: KeyField, k: string, fld: Field): int
    decreases |ms|
  {
    if ms == [] then 0
    else Total(ms[..|ms| - 1], f, k, fld) + Earned(ms[|ms| - 1], f, k, fld)
  }

  lemma AdmitWeight(t: Table, k: string, name: string, x: string, fld: Field)
    ensures Weight(Admit(t, k, name).records, x, fld) == Weight(t.records, x, fld)
  {
    WithMatchGain(Zero(name), 0, 0, fld);
  }

  lemma CreditWeight(t: Table, k: string, gf: nat, ga: nat, x: string, fld: Field)
    requires k in t.records
    ensures Weight(Credit(t, k, gf, ga).records, x, fld)
            == Weight(t.records, x, fld) + (if x == k then Gain(gf, ga, fld) else 0)
  {
    WithMatchGain(t.records[k], gf, ga, fld);
  }

  /** A match moves each counter of each identifier by exactly what the
      match earns that team, and no more. */
  lemma StepWeight(t: Table, m: Match, f: KeyField, k: string, fld: Field)
    ensures Weight(Step(t, m, f).records, k, fld) == Weight(t.records, k, fld) + Earned(m, f, k, fld)
  {
    var k1, k2 := Id(m.team1, f), Id(m.team2, f);
    var a1 := Admit(t, k1, m.team1.name);
    var a2 := Admit(a1, k2, m.team2.name);
    var c1 := Credit(a2, k1, m.score1, m.score2);
    AdmitWeight(t, k1, m.team1.name, k, fld);
    AdmitWeight(a1, k2, m.team2.name, k, fld);
    CreditWeight(a2, k1, m.score1, m.score2, k, fld);
    CreditWeight(c1, k2, m.score2, m.score1, k, fld);
  }

  /** Every counter of every team equals the sum, over all matches, of what
      each match contributed to that team: the aggregation misses no match
      and counts none twice. */
  lemma {:induction false} TeamTotals(ms: seq<Match>, f: KeyField, k: string, fld: Field)
    ensures Weight(Aggregate(ms, f).records, k, fld) == Total(ms, f, k, fld)
    decreases |ms|
  {
    if ms != [] {
      TeamTotals(ms[..|ms| - 1], f, k, fld);
      StepWeight(Aggregate(ms[..|ms| - 1], f), ms[|ms| - 1], f, k, fld);
    }
  }

  // ---------------------------------------------------------------------
  // Table-wide sums

  /** A counter summed over the teams listed in `keys`. */
  function SumOver(keys: seq<string>, recs: map<string, Record>, fld: Field): int
    decreases |keys|
  {
    if keys == [] then 0
    else SumOver(keys[..|keys| - 1], recs, fld) + Weight(recs, keys[|keys| - 1], fld)
  }

  function Sum(t: Table, fld: Field): int
  {
    SumOver(t.keys, t.records, fld)
  }

  lemma {:induction false} SumOverUpdate(keys: seq<string>, recs: map<string, Record>, k: string, v: Record, fld: Field)
    requires forall i, j :: 0 <= i < j < |keys| ==> keys[i] != keys[j]
    ensures SumOver(keys, recs[k := v], fld)
            == SumOver(keys, recs, fld) + (if k in keys then FieldOf(v, fld) - Weight(recs, k, fld) else 0)
    decreases |keys|
  {
    if keys != [] {
      var init := keys[..|keys| - 1];
      SumOverUpdate(init, recs, k, v, fld);
      assert k in keys <==> k in init || k == keys[|keys| - 1];
      if k == keys[|keys| - 1] {
        assert k !in init;
      }
    }
  }

  lemma SumAdmit(t: Table, k: string, name: string, fld: Field)
    requires WellFormed(t)
    ensures Sum(Admit(t, k, name), fld) == Sum(t, fld)
  {
    if k !in t.records {
      var r := Admit(t, k, name);
      assert r.keys[..|t.keys|] == t.keys;
      SumOverUpdate(t.keys, t.records, k, Zero(name), fld);
      WithMatchGain(Zero(name), 0, 0, fld);
    }
  }

  lemma SumCredit(t: Table, k: string, gf: nat, ga: nat, fld: Field)
    requires WellFormed(t) && k in t.records
    ensures Sum(Credit(t, k, gf, ga), fld) == Sum(t, fld) + Gain(gf, ga, fld)
  {
    SumOverUpdate(t.keys, t.records, k, t.records[k].WithMatch(gf, ga), fld);
    WithMatchGain(t.records[k], gf, ga, fld);
  }

  lemma SumStep(t: Table, m: Match, f: KeyField, fld: Field)
    requires WellFormed(t)
    ensures Sum(Step(t, m, f), fld) == Sum(t, fld) + Gain(m.score1, m.score2, fld) + Gain(m.score2, m.score1, fld)
  {
    var k1, k2 := Id(m.team1, f), Id(m.team2, f);
    var a1 := Admit(t, k1, m.team1.name);
    var a2 := Admit(a1, k2, m.team2.name);
    var c1 := Credit(a2, k1, m.score1, m.score2);
    AdmitWellFormed(t, k1, m.team1.name);
    AdmitWellFormed(a1, k2, m.team2.name);
    CreditWellFormed(a2, k1, m.score1, m.score2);
    SumAdmit(t, k1, m.team1.name, fld);
    SumAdmit(a1, k2, m.team2.name, fld);
    SumCredit(a2, k1, m.score1, m.score2, fld);
    SumCredit(c1, k2, m.score2, m.score1, fld);
  }

  /** What a counter gains over the whole table from the matches `ms`:
      each match counts once from each side. */
  function MatchGains(ms: seq<Match>, fld: Field): int
    decreases |ms|
  {
    if ms == [] then 0
    else
      var m := ms[|ms| - 1];
      MatchGains(ms[..|ms| - 1], fld) + Gain(m.score1, m.score2, fld) + Gain(m.score2, m.score1, fld)
  }

  lemma {:induction false} AggregateSum(ms: seq<Match>, f: KeyField, fld: Field)
    ensures Sum(Aggregate(ms, f), fld) == MatchGains(ms, fld)
    decreases |ms|
  {
    if ms != [] {
      var init := ms[..|ms| - 1];
      AggregateSum(init, f, fld);
      AggregateWellFormed(init, f);
      SumStep(Aggregate(init, f), ms[|ms| - 1], f, fld);
    }
  }

  lemma {:induction false} MatchGainsBalance(ms: seq<Match>)
    ensures MatchGains(ms, GamesPlayed) == 2 * |ms|
    ensures MatchGains(ms, GoalsFor) == MatchGains(ms, GoalsAgainst)
    ensures MatchGains(ms, Wins) == MatchGains(ms, Defeats)
    decreases |ms|
  {
    if ms != [] {
      MatchGainsBalance(ms[..|ms| - 1]);
    }
  }

  /** Over the whole table: games played add up to twice the number of
      matches, goals scored to goals conceded, and wins to defeats. */
  lemma AggregateSums(ms: seq<Match>, f: KeyField)
    ensures Sum(Aggregate(ms, f), GamesPlayed) == 2 * |ms|
    ensures Sum(Aggregate(ms, f), GoalsFor) == Sum(Aggregate(ms, f), GoalsAgainst)
    ensures Sum(Aggregate(ms, f), Wins) == Sum(Aggregate(ms, f), Defeats)
  {
    AggregateSum(ms, f, GamesPlayed);
    AggregateSum(ms, f, GoalsFor);
    AggregateSum(ms, f, GoalsAgainst);
    AggregateSum(ms, f, Wins);
    AggregateSum(ms, f, Defeats);
    MatchGainsBalance(ms);
  }

  // ---------------------------------------------------------------------
  // One entry per distinct identifier

  /** Every identifier that some match mentions. */
  ghost function SeenIds(ms: seq<Match>, f: KeyField): set<string>
    decreases |ms|
  {
    if ms == [] then {}
    else SeenIds(ms[..|ms| - 1], f) + {Id(ms[|ms| - 1].team1, f), Id(ms[|ms| - 1].team2, f)}
  }

  lemma {:induction false} DistinctCard(s: seq<string>)
    requires forall i, j :: 0 <= i < j < |s| ==> s[i] != s[j]
    ensures |set x | x in s| == |s|
    decreases |s|
  {
    if s != [] {
      var init := s[..|s| - 1];
      DistinctCard(init);
      assert (set x | x in s) == (set x | x in init) + {s[|s| - 1]};
      assert s[|s| - 1] !in init;
    }
  }

  lemma {:induction false} SeenIdsMentioned(ms: seq<Match>, f: KeyField, k: string)
    ensures k in SeenIds(ms, f) <==> MentionedBy(ms, f, k)
    decreases |ms|
  {
    if ms != [] {
      SeenIdsMentioned(ms[..|ms| - 1], f, k);
      MentionedBySnoc(ms, f, k);
    }
  }

  /** The team map has exactly one entry per distinct identifier seen. */
  lemma KeyCount(ms: seq<Match>, f: KeyField)
    ensures (set k | k in Aggregate(ms, f).keys) == SeenIds(ms, f)
    ensures |Aggregate(ms, f).keys| == |SeenIds(ms, f)|
  {
    var t := Aggregate(ms, f);
    AggregateWellFormed(ms, f);
    forall k
      ensures k in t.keys <==> k in SeenIds(ms, f)
    {
      AggregateKeys(ms, f, k);
      SeenIdsMentioned(ms, f, k);
    }
    DistinctCard(t.keys);
  }

  /** A team's record, in full: named by the first match that mentions it,
      each counter the total that all matches contribute to it. */
  lemma TeamRecord(ms: seq<Match>, f: KeyField, k: string, j: nat)
    requires j < |ms| && Mentions(ms[j], f, k) && !MentionedBy(ms[..j], f, k)
    ensures k in Aggregate(ms, f).records
    ensures Aggregate(ms, f).records[k].name == NameIn(ms[j], f, k)
    ensures forall fld :: FieldOf(Aggregate(ms, f).records[k], fld) == Total(ms, f, k, fld)
  {
    FirstSightingName(ms, f, k, j);
    forall fld
      ensures FieldOf(Aggregate(ms, f).records[k], fld) == Total(ms, f, k, fld)
    {
      TeamTotals(ms, f, k, fld);
    }
  }
}
