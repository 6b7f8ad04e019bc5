/** What acceptance by the lineage checks means: every tournament metric names exactly the
    matches it pools. */
module LineageSoundness {
  import opened Wrappers
  import opened Aggregation
  import opened TeamGraph
  import opened LineageCheck

  // ---- identifiers ----

  /** Under one team, metric and version, ids tell matches apart. */
  lemma IdsTellMatchesApart(team: string, m: string, m': string, mid: string, ver: string)
    requires TeamMatchId(team, m, mid, ver) == TeamMatchId(team, m', mid, ver)
    ensures m == m'
  {
    var prefix, suffix := "aggregation:team_match:" + team + ":", ":" + mid + ":" + ver + ":" + SCORE_RULES;
    assert TeamMatchId(team, m, mid, ver) == prefix + m + suffix;
    assert TeamMatchId(team, m', mid, ver) == prefix + m' + suffix;
    Between(prefix, m, m', suffix);
  }

  lemma Between(prefix: string, a: string, b: string, suffix: string)
    requires prefix + a + suffix == prefix + b + suffix
    ensures a == b
  {
    var s, t := prefix + a + suffix, prefix + b + suffix;
    assert |a| == |b|;
    assert a == s[|prefix|..|prefix| + |a|] && b == t[|prefix|..|prefix| + |b|];
  }

  /** Every held child is of this metric and version. */
  ghost predicate Typed(byMatch: ByMatch, ids: seq<string>, key: string, mid: string, ver: string) {
    forall m :: m in ids && Holds(byMatch, m, key) ==>
                  Child(byMatch, m, key).metricId == mid && Child(byMatch, m, key).version == ver
  }

  /** No two held matches share a reference id. */
  ghost predicate IdsApart(team: string, byMatch: ByMatch, ids: seq<string>, key: string) {
    forall m, m' :: m in ids && m' in ids && m != m' && Holds(byMatch, m, key) && Holds(byMatch, m', key) ==>
                      ChildId(team, byMatch, m, key) != ChildId(team, byMatch, m', key)
  }

  lemma TypedIdsApart(team: string, byMatch: ByMatch, ids: seq<string>, key: string, mid: string, ver: string)
    requires Typed(byMatch, ids, key, mid, ver)
    ensures IdsApart(team, byMatch, ids, key)
  {
    forall m, m' | m in ids && m' in ids && Holds(byMatch, m, key) && Holds(byMatch, m', key)
                   && ChildId(team, byMatch, m, key) == ChildId(team, byMatch, m', key)
      ensures m == m'
    {
      hide TeamMatchId;
      assert ChildId(team, byMatch, m, key) == TeamMatchId(team, m, mid, ver);
      assert ChildId(team, byMatch, m', key) == TeamMatchId(team, m', mid, ver);
      IdsTellMatchesApart(team, m, m', mid, ver);
    }
  }

  ghost predicate IsChild(team: string, byMatch: ByMatch, ids: seq<string>, key: string, id: string, m: string) {
    m in ids && Holds(byMatch, m, key) && id == ChildId(team, byMatch, m, key)
  }

  /** The map holds exactly the held matches of `ids`, under their ids. */
  ghost predicate Exact(team: string, byMatch: ByMatch, ids: seq<string>, key: string, children: map<string, string>) {
    && (forall id :: id in children ==> IsChild(team, byMatch, ids, key, id, children[id]))
    && (forall m :: m in ids && Holds(byMatch, m, key) ==>
          var id := ChildId(team, byMatch, m, key); id in children && children[id] == m)
  }

  /** The expected children are exactly the held matches, when ids tell these apart. */
  lemma {:induction false} ChildrenExact(team: string, byMatch: ByMatch, ids: seq<string>, key: string)
    requires Distinct(ids) && IdsApart(team, byMatch, ids, key)
    ensures Exact(team, byMatch, ids, key, ChildRefs(team, byMatch, ids, key))
    ensures |ChildRefs(team, byMatch, ids, key)| == |ChildValues(byMatch, ids, key)|
  {
    if ids != [] {
      var n := |ids| - 1;
      assert ids == ids[..n] + [ids[n]];
      assert forall i :: 0 <= i < n ==> ids[..n][i] == ids[i];
      hide ChildId;
      ChildrenExact(team, byMatch, ids[..n], key);
      LastChild(team, byMatch, ids, key);
      hide ChildValues, ChildRefs;
      var earlier := ChildRefs(team, byMatch, ids[..n], key);
      if Holds(byMatch, ids[n], key) {
        OneMoreChild(team, byMatch, ids[..n], ids[n], key, earlier);
      }
    }
  }

  lemma LastChild(team: string, byMatch: ByMatch, ids: seq<string>, key: string)
    requires ids != []
    ensures var n := |ids| - 1;
      var refs, values := ChildRefs(team, byMatch, ids[..n], key), ChildValues(byMatch, ids[..n], key);
      if Holds(byMatch, ids[n], key)
      then && ChildRefs(team, byMatch, ids, key) == refs[ChildId(team, byMatch, ids[n], key) := ids[n]]
           && |ChildValues(byMatch, ids, key)| == |values| + 1
      else ChildRefs(team, byMatch, ids, key) == refs && ChildValues(byMatch, ids, key) == values
  {
    hide ChildId;
  }

  lemma OneMoreChild(
    team: string, byMatch: ByMatch, ids: seq<string>, m: string, key: string, children: map<string, string>)
    requires Exact(team, byMatch, ids, key, children) && m !in ids && Holds(byMatch, m, key)
    requires IdsApart(team, byMatch, ids + [m], key)
    ensures var own := ChildId(team, byMatch, m, key);
      && Exact(team, byMatch, ids + [m], key, children[own := m])
      && |children[own := m]| == |children| + 1
  {
    NewChildId(team, byMatch, ids, m, key, children);
    hide ChildId, Holds, IdsApart, IsChild;
    var more := children[ChildId(team, byMatch, m, key) := m];
    forall id | id in more ensures IsChild(team, byMatch, ids + [m], key, id, more[id]) {
      ChildStays(team, byMatch, ids, m, key, id, more[id]);
    }
    forall m' | m' in ids + [m] && Holds(byMatch, m', key)
      ensures ChildId(team, byMatch, m', key) in more && more[ChildId(team, byMatch, m', key)] == m'
    {
      assert m' in ids || m' == m;
    }
    OneMoreKey(children, ChildId(team, byMatch, m, key), m);
  }

  lemma OneMoreKey(children: map<string, string>, id: string, m: string)
    requires id !in children
    ensures |children[id := m]| == |children| + 1
  {
    assert children[id := m].Keys == children.Keys + {id};
    assert |children[id := m].Keys| == |children[id := m]|;
  }

  lemma ChildStays(
    team: string, byMatch: ByMatch, ids: seq<string>, m: string, key: string, id: string, child: string)
    ensures IsChild(team, byMatch, ids, key, id, child) ==> IsChild(team, byMatch, ids + [m], key, id, child)
    ensures Holds(byMatch, m, key) && id == ChildId(team, byMatch, m, key) && child == m ==>
              IsChild(team, byMatch, ids + [m], key, id, child)
  {
    hide ChildId, Holds;
  }

  lemma NewChildId(
    team: string, byMatch: ByMatch, ids: seq<string>, m: string, key: string, children: map<string, string>)
    requires Exact(team, byMatch, ids, key, children) && m !in ids && Holds(byMatch, m, key)
    requires IdsApart(team, byMatch, ids + [m], key)
    ensures var own := ChildId(team, byMatch, m, key);
      own !in children && forall m' :: m' in ids && Holds(byMatch, m', key) ==> ChildId(team, byMatch, m', key) != own
  {
    hide ChildId, Holds;
    forall m' | m' in ids && Holds(byMatch, m', key)
      ensures ChildId(team, byMatch, m', key) != ChildId(team, byMatch, m, key)
    {
      assert m in ids + [m] && m' in ids + [m];
    }
  }

  // ---- soundness ----

  /** The only aggregation with this id is reference `i`. */
  ghost predicate RefersAt(refs: seq<Ref>, id: string, i: int) {
    && 0 <= i < |refs| && IsAggregation(refs[i]) && refs[i].id == id
    && forall j :: 0 <= j < |refs| && j != i ==> !(IsAggregation(refs[j]) && refs[j].id == id)
  }

  /** Exactly one aggregation has this id, and it is stamped for the match. */
  ghost predicate NamedOnce(refs: seq<Ref>, id: string, matchId: string, contract: string) {
    exists i :: RefersAt(refs, id, i) && Stamped(refs[i], matchId, contract)
  }

  lemma {:induction false} NotThere(refs: seq<Ref>, id: string)
    ensures CountId(refs, id) == 0 <==> forall j :: 0 <= j < |refs| ==> !(IsAggregation(refs[j]) && refs[j].id == id)
  {
    if refs != [] {
      var n := |refs| - 1;
      NotThere(refs[..n], id);
      assert forall j :: 0 <= j < n ==> refs[..n][j] == refs[j];
    }
  }

  lemma {:induction false} Somewhere(refs: seq<Ref>, id: string) returns (i: nat)
    requires CountId(refs, id) == 1
    ensures RefersAt(refs, id, i)
  {
    var n := |refs| - 1;
    assert forall j :: 0 <= j < n ==> refs[..n][j] == refs[j];
    if IsAggregation(refs[n]) && refs[n].id == id {
      NotThere(refs[..n], id);
      i := n;
    } else {
      i := Somewhere(refs[..n], id);
    }
  }

  lemma {:induction false} OneIsEnough(refs: seq<Ref>, id: string, i: nat)
    requires RefersAt(refs, id, i)
    ensures CountId(refs, id) == 1
  {
    var n := |refs| - 1;
    assert forall j :: 0 <= j < n ==> refs[..n][j] == refs[j];
    if i == n {
      NotThere(refs[..n], id);
    } else {
      OneIsEnough(refs[..n], id, i);
    }
  }

  ghost predicate NamesChild(r: Ref, team: string, byMatch: ByMatch, key: string) {
    Holds(byMatch, r.matchId, key) && r.id == ChildId(team, byMatch, r.matchId, key)
  }

  /** Every aggregation is the tournament's own or names a child with its match. */
  ghost predicate NothingElse(refs: seq<Ref>, own: string, team: string, byMatch: ByMatch, key: string) {
    forall i :: 0 <= i < |refs| && IsAggregation(refs[i]) ==>
        refs[i].id == own || NamesChild(refs[i], team, byMatch, key)
  }

  ghost predicate EachNamed(refs: seq<Ref>, contract: string, team: string, byMatch: ByMatch, key: string) {
    forall m :: Holds(byMatch, m, key) ==> NamedOnce(refs, ChildId(team, byMatch, m, key), m, contract)
  }

  /** The metric names itself once, each match of the team that holds it once and with that
      match, nothing else, and its totals are those of the matches it names. */
  ghost predicate NamesItsMatches(
    reg: Registry, contract: string, team: string, byMatch: ByMatch, key: string, t: Aggregate, ids: seq<string>)
  {
    var own := TournamentId(team, t.metricId, t.version);
    && NamedOnce(t.lineage, own, "", contract)
    && EachNamed(t.lineage, contract, team, byMatch, key)
    && NothingElse(t.lineage, own, team, byMatch, key)
    && t.eligible == |ChildValues(byMatch, ids, key)|
    && Reconciles(Pool(key, RuleFor(reg, key), ChildValues(byMatch, ids, key)), t)
  }

  /** What acceptance is for: all that, and each entity it names carries that id itself. */
  ghost predicate Sound(
    reg: Registry, contract: string, team: string, byMatch: ByMatch, key: string, t: Aggregate, ids: seq<string>)
  {
    && NamesItsMatches(reg, contract, team, byMatch, key, t, ids)
    && forall m :: Holds(byMatch, m, key) ==>
         CountId(Child(byMatch, m, key).lineage, ChildId(team, byMatch, m, key)) == 1
  }

  // ---- the tournament check alone ----

  lemma NamedChild(
    team: string, contract: string, byMatch: ByMatch, ids: seq<string>, key: string, refs: seq<Ref>, own: string,
    m: string)
    requires Exact(team, byMatch, ids, key, ChildRefs(team, byMatch, ids, key)) && m in ids && Holds(byMatch, m, key)
    requires TournamentLineageOk(refs, own, ChildRefs(team, byMatch, ids, key), contract)
    ensures NamedOnce(refs, ChildId(team, byMatch, m, key), m, contract)
  {
    var children := ChildRefs(team, byMatch, ids, key);
    hide ChildRefs, CountId, ChildId;
    var i := Somewhere(refs, ChildId(team, byMatch, m, key));
    assert TournamentRefOk(refs[i], own, children, contract);
  }

  lemma NamedItself(refs: seq<Ref>, own: string, children: map<string, string>, contract: string)
    requires TournamentLineageOk(refs, own, children, contract)
    ensures NamedOnce(refs, own, "", contract)
  {
    var i := Somewhere(refs, own);
    assert TournamentRefOk(refs[i], own, children, contract);
  }

  lemma OnlyChildren(
    team: string, contract: string, byMatch: ByMatch, ids: seq<string>, key: string, refs: seq<Ref>, own: string)
    requires Exact(team, byMatch, ids, key, ChildRefs(team, byMatch, ids, key))
    requires TournamentLineageOk(refs, own, ChildRefs(team, byMatch, ids, key), contract)
    ensures NothingElse(refs, own, team, byMatch, key)
  {
    var children := ChildRefs(team, byMatch, ids, key);
    hide ChildRefs, CountId, ChildId;
    forall i | 0 <= i < |refs| && IsAggregation(refs[i]) && refs[i].id != own
      ensures NamesChild(refs[i], team, byMatch, key)
    {
      assert TournamentRefOk(refs[i], own, children, contract);
      assert IsChild(team, byMatch, ids, key, refs[i].id, children[refs[i].id]);
    }
  }

  lemma OneNameOneMatch(refs: seq<Ref>, id: string, m: string, m': string, contract: string)
    requires NamedOnce(refs, id, m, contract) && NamedOnce(refs, id, m', contract)
    ensures m == m'
  {
    var i :| RefersAt(refs, id, i) && Stamped(refs[i], m, contract);
    var j :| RefersAt(refs, id, j) && Stamped(refs[j], m', contract);
  }

  /** What passes the tournament check names its matches exactly, just when no two of them
      share a reference id. */
  lemma AcceptedNamesWhen(
    reg: Registry, contract: string, team: string, byMatch: ByMatch, c: Coverage, key: string, t: Aggregate)
    requires CoverageOk(byMatch, c) && TournamentMetricOk(reg, contract, team, byMatch, c.matchIds, key, t)
    ensures NamesItsMatches(reg, contract, team, byMatch, key, t, c.matchIds) <==>
              IdsApart(team, byMatch, c.matchIds, key)
  {
    var ids, own := c.matchIds, TournamentId(team, t.metricId, t.version);
    hide TournamentId, ChildId, ChildRefs, CountId, Pool, Registered, Reconciles, TournamentLineageOk, ChildValues;
    hide NamedOnce, NothingElse, RuleFor;
    if IdsApart(team, byMatch, ids, key) {
      ChildrenExact(team, byMatch, ids, key);
      hide IdsApart, Exact;
      OnlyChildren(team, contract, byMatch, ids, key, t.lineage, own);
      NamedItself(t.lineage, own, ChildRefs(team, byMatch, ids, key), contract);
      forall m | Holds(byMatch, m, key) ensures NamedOnce(t.lineage, ChildId(team, byMatch, m, key), m, contract) {
        NamedChild(team, contract, byMatch, ids, key, t.lineage, own, m);
      }
    }
    if EachNamed(t.lineage, contract, team, byMatch, key) {
      forall m, m' | m in ids && m' in ids && Holds(byMatch, m, key) && Holds(byMatch, m', key)
                     && ChildId(team, byMatch, m, key) == ChildId(team, byMatch, m', key)
        ensures m == m'
      {
        OneNameOneMatch(t.lineage, ChildId(team, byMatch, m, key), m, m', contract);
      }
    }
  }

  // ---- both checks ----

  /** Entities that passed give all children one metric and version: the key decides them,
      and under the empty key there is at most one child. */
  lemma EntitiesTyped(cs: CorpusScores, reg: Registry, team: string, byMatch: ByMatch, ids: seq<string>, key: string)
    requires TeamEntitiesOk(cs, reg, team, byMatch) && (key != "" || "" !in reg) && Distinct(ids)
    requires Pool(key, RuleFor(reg, key), ChildValues(byMatch, ids, key)).Some?
    ensures exists mid, ver :: Typed(byMatch, ids, key, mid, ver)
  {
    forall m | Holds(byMatch, m, key)
      ensures Registered(reg, key, Child(byMatch, m, key).metricId, Child(byMatch, m, key).version)
    {
      assert EntityOk(cs, reg, team, m, byMatch[m]);
    }
    if key != "" {
      assert Typed(byMatch, ids, key, key, if key in reg then reg[key].version else "");
    } else {
      AtMostOne(reg, byMatch, ids);
    }
  }

  lemma AtMostOne(reg: Registry, byMatch: ByMatch, ids: seq<string>)
    requires "" !in reg && Comparable("", ChildValues(byMatch, ids, ""))
    requires forall m :: Holds(byMatch, m, "") ==> Child(byMatch, m, "").metricId in reg
    ensures exists mid, ver :: Typed(byMatch, ids, "", mid, ver)
  {
    if |ChildValues(byMatch, ids, "")| > 1 {
      SecondIsBlank(reg, byMatch, ids);
    }
    var a := TheOnly(byMatch, ids, "");
    assert Typed(byMatch, ids, "", a.metricId, a.version);
  }

  lemma SecondIsBlank(reg: Registry, byMatch: ByMatch, ids: seq<string>)
    requires Comparable("", ChildValues(byMatch, ids, "")) && |ChildValues(byMatch, ids, "")| > 1
    requires forall m :: Holds(byMatch, m, "") ==> Child(byMatch, m, "").metricId in reg
    ensures "" in reg
  {
    ValuesRegistered(reg, byMatch, ids, "");
    assert ChildValues(byMatch, ids, "")[1].metricId == "";
  }

  lemma {:induction false} ValuesRegistered(reg: Registry, byMatch: ByMatch, ids: seq<string>, key: string)
    requires forall m :: Holds(byMatch, m, key) ==> Child(byMatch, m, key).metricId in reg
    ensures forall i :: 0 <= i < |ChildValues(byMatch, ids, key)| ==> ChildValues(byMatch, ids, key)[i].metricId in reg
  {
    if ids != [] { ValuesRegistered(reg, byMatch, ids[..|ids| - 1], key); }
  }

  lemma {:induction false} NoneHeld(byMatch: ByMatch, ids: seq<string>, key: string)
    requires ChildValues(byMatch, ids, key) == []
    ensures forall m :: m in ids ==> !Holds(byMatch, m, key)
  {
    if ids != [] {
      var n := |ids| - 1;
      NoneHeld(byMatch, ids[..n], key);
      assert ids == ids[..n] + [ids[n]];
    }
  }

  lemma {:induction false} TheOnly(byMatch: ByMatch, ids: seq<string>, key: string) returns (a: Aggregate)
    requires |ChildValues(byMatch, ids, key)| <= 1 && ids != []
    ensures forall m :: m in ids && Holds(byMatch, m, key) ==> Child(byMatch, m, key) == a
  {
    var n := |ids| - 1;
    assert ids == ids[..n] + [ids[n]];
    if Holds(byMatch, ids[n], key) {
      a := Child(byMatch, ids[n], key);
      NoneHeld(byMatch, ids[..n], key);
    } else if n == 0 {
      a := Aggregate("", "", 0.0, 0.0, 0.0, 0, 0, "", false, false, []);
    } else {
      a := TheOnly(byMatch, ids[..n], key);
    }
  }

  /** Whatever graph passes both checks is sound, for every team and metric, just when no
      two matches of the metric share a reference id; and none do, unless the metric has no
      name and the registry lists one without. */
  lemma AcceptedIsSound(cs: CorpusScores, reg: Registry, i: nat, key: string)
    requires EntitiesOk(cs, reg) && TournamentsOk(cs, reg)
    requires i < |cs.teams| && cs.teams[i].Some? && key in cs.teams[i].value.aggregated
    ensures var team := cs.teams[i].value; var byMatch, ids := MatchesOf(cs, team.teamId), team.coverage.matchIds;
      && (key != "" || "" !in reg ==> IdsApart(team.teamId, byMatch, ids, key))
      && (Sound(reg, cs.teamVersion, team.teamId, byMatch, key, team.aggregated[key], ids) <==>
            IdsApart(team.teamId, byMatch, ids, key))
  {
    var team := cs.teams[i].value;
    var byMatch := MatchesOf(cs, team.teamId);
    assert TeamOk(reg, cs.teamVersion, byMatch, team);
    assert TeamEntitiesOk(cs, reg, team.teamId, byMatch);
    hide TournamentMetricOk, TeamEntitiesOk, EntitiesOk, TournamentsOk;
    MetricIsSound(cs, reg, team.teamId, byMatch, team.coverage, key, team.aggregated[key]);
  }

  lemma MetricIsSound(
    cs: CorpusScores, reg: Registry, team: string, byMatch: ByMatch, c: Coverage, key: string, t: Aggregate)
    requires TeamEntitiesOk(cs, reg, team, byMatch) && CoverageOk(byMatch, c)
    requires TournamentMetricOk(reg, cs.teamVersion, team, byMatch, c.matchIds, key, t)
    ensures key != "" || "" !in reg ==> IdsApart(team, byMatch, c.matchIds, key)
    ensures Sound(reg, cs.teamVersion, team, byMatch, key, t, c.matchIds) <==> IdsApart(team, byMatch, c.matchIds, key)
  {
    EntitiesCarryTheirId(cs, reg, team, byMatch, key);
    AcceptedNamesWhen(reg, cs.teamVersion, team, byMatch, c, key, t);
    if key != "" || "" !in reg {
      EntitiesTyped(cs, reg, team, byMatch, c.matchIds, key);
      var mid, ver :| Typed(byMatch, c.matchIds, key, mid, ver);
      TypedIdsApart(team, byMatch, c.matchIds, key, mid, ver);
    }
    hide NamesItsMatches, ChildId, CountId, TeamEntitiesOk, TournamentMetricOk, Typed, IdsApart;
  }

  lemma EntitiesCarryTheirId(cs: CorpusScores, reg: Registry, team: string, byMatch: ByMatch, key: string)
    requires TeamEntitiesOk(cs, reg, team, byMatch)
    ensures forall m :: Holds(byMatch, m, key) ==>
              CountId(Child(byMatch, m, key).lineage, ChildId(team, byMatch, m, key)) == 1
  {
    hide CountId, TeamMatchId;
    forall m | Holds(byMatch, m, key)
      ensures CountId(Child(byMatch, m, key).lineage, ChildId(team, byMatch, m, key)) == 1
    {
      assert EntityOk(cs, reg, team, m, byMatch[m]);
    }
  }
}
