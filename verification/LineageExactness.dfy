/** The lineage checks accept exactly what they should: every condition written out over the
    references, and both directions. */
module LineageExactness {
  import opened Wrappers
  import opened Aggregation
  import opened TeamGraph
  import opened LineageCheck
  import opened LineageSoundness

  // ---- references ----

  /** The reference of a match's pool: what it is called and what it is stamped with. */
  function PoolRef(team: string, matchId: string, mid: string, ver: string, contract: string): Ref {
    Ref(matchId, "aggregation",
        "aggregation:team_match:" + team + ":" + matchId + ":" + mid + ":" + ver + ":" + "ti2026.scoring.v5",
        "ti2026.scoring.v5", contract, 0)
  }

  function TournamentPoolRef(team: string, mid: string, ver: string, contract: string): Ref {
    Ref("", "aggregation", "aggregation:team_tournament:" + team + "::" + mid + ":" + ver + ":" + "ti2026.scoring.v5",
        "ti2026.scoring.v5", contract, 0)
  }

  /** A built team match publishes exactly its pools, each over its own reference. */
  lemma TeamMatchPublishes(
    tm: TeamMatch, reg: Registry, contract: string, team: string, matchId: string, rows: seq<PlayerRow>, mid: string)
    requires IsTeamMatch(tm, reg, contract, team, matchId, rows)
    ensures tm.matchId == matchId && tm.teamId == team && tm.contractVersion == contract && tm.playerCount == |rows|
    ensures var p := Pool(mid, RuleFor(reg, mid), Observations(rows, mid));
      && (mid in tm.metrics <==> p.Some?)
      && (p.Some? ==>
            tm.metrics[mid] == p.value.(
              lineage := p.value.lineage + [PoolRef(team, matchId, mid, p.value.version, contract)]))
  {
    hide Observations, RuleFor;
    var p := Pool(mid, RuleFor(reg, mid), Observations(rows, mid));
    assert p.Some? ==> p.value.metricId == mid;
    hide Pool;
    assert MatchMetric(reg, contract, team, matchId, rows, mid) ==
      if mid in tm.metrics then Some(tm.metrics[mid]) else None;
  }

  /** So does a built tournament, over its matches in order. */
  lemma TournamentPublishes(
    tt: TeamTournament, reg: Registry, contract: string, team: string, byMatch: ByMatch, mid: string)
    requires IsTournament(tt, reg, contract, team, byMatch)
    ensures tt.teamId == team && tt.eligible == |tt.matchIds| && forall m :: m in tt.matchIds <==> m in byMatch
    ensures var p := Pool(mid, RuleFor(reg, mid), ChildValues(byMatch, tt.matchIds, mid));
      && (mid in tt.metrics <==> p.Some?)
      && (p.Some? ==>
            tt.metrics[mid] == p.value.(
              lineage := p.value.lineage + [TournamentPoolRef(team, mid, p.value.version, contract)]))
  {
    hide ChildValues, RuleFor;
    var p := Pool(mid, RuleFor(reg, mid), ChildValues(byMatch, tt.matchIds, mid));
    assert p.Some? ==> p.value.metricId == mid;
    hide Pool;
    assert TournamentMetric(reg, contract, team, byMatch, tt.matchIds, mid) ==
      if mid in tt.metrics then Some(tt.metrics[mid]) else None;
  }

  // ---- team-match entities ----

  /** The metric is registered under its key, and of its references exactly one is an
      aggregation: its own, for its match. */
  ghost predicate EntityMetricSound(
    reg: Registry, contract: string, team: string, matchId: string, key: string, a: Aggregate)
  {
    && (key == "" || key == a.metricId) && a.metricId in reg && reg[a.metricId].version == a.version
    && exists i :: 0 <= i < |a.lineage| && OwnRef(a, i, team, matchId, contract) &&
         forall j :: 0 <= j < |a.lineage| && j != i ==>
           a.lineage[j].kind != "aggregation" && a.lineage[j].matchId == matchId
  }

  predicate OwnRef(a: Aggregate, i: int, team: string, matchId: string, contract: string)
    requires 0 <= i < |a.lineage|
  {
    a.lineage[i].(sourceSeq := 0) == PoolRef(team, matchId, a.metricId, a.version, contract)
  }

  lemma EntityMetricExactly(
    reg: Registry, contract: string, team: string, matchId: string, key: string, a: Aggregate)
    ensures EntityMetricOk(reg, contract, team, matchId, key, a) <==>
              EntityMetricSound(reg, contract, team, matchId, key, a)
  {
    var id := TeamMatchId(team, matchId, a.metricId, a.version);
    assert PoolRef(team, matchId, a.metricId, a.version, contract) ==
      Ref(matchId, AGGREGATION, id, SCORE_RULES, contract, 0);
    hide TeamMatchId, PoolRef;
    if EntityMetricOk(reg, contract, team, matchId, key, a) {
      OneAggregation(a.lineage, id, matchId, contract);
      var i := Somewhere(a.lineage, id);
      assert EntityRefOk(a.lineage[i], id, matchId, contract);
      assert OwnRef(a, i, team, matchId, contract);
    }
    if EntityMetricSound(reg, contract, team, matchId, key, a) {
      var i :| 0 <= i < |a.lineage| && OwnRef(a, i, team, matchId, contract) &&
         forall j :: 0 <= j < |a.lineage| && j != i ==>
           a.lineage[j].kind != "aggregation" && a.lineage[j].matchId == matchId;
      assert RefersAt(a.lineage, id, i);
      OneIsEnough(a.lineage, id, i);
      hide CountId;
    }
  }

  lemma OneAggregation(refs: seq<Ref>, id: string, matchId: string, contract: string)
    requires EntityLineageOk(refs, id, matchId, contract)
    ensures forall j :: 0 <= j < |refs| ==> refs[j].matchId == matchId
    ensures forall j :: 0 <= j < |refs| && refs[j].kind == "aggregation" ==> refs[j].id == id
  {
    hide CountId;
    forall j | 0 <= j < |refs| ensures EntityRefOk(refs[j], id, matchId, contract) {}
  }

  // ---- team tournaments ----

  /** Where no two matches share a reference id, the tournament check accepts a metric just
      when it is registered under its key and names exactly its matches. */
  lemma TournamentMetricExactly(
    reg: Registry, contract: string, team: string, byMatch: ByMatch, c: Coverage, key: string, t: Aggregate)
    requires CoverageOk(byMatch, c) && IdsApart(team, byMatch, c.matchIds, key)
    ensures TournamentMetricOk(reg, contract, team, byMatch, c.matchIds, key, t) <==>
      && (key == "" || key == t.metricId) && t.metricId in reg && reg[t.metricId].version == t.version
      && NamesItsMatches(reg, contract, team, byMatch, key, t, c.matchIds)
  {
    if TournamentMetricOk(reg, contract, team, byMatch, c.matchIds, key, t) {
      AcceptedNamesWhen(reg, contract, team, byMatch, c, key, t);
      hide NamesItsMatches, TournamentLineageOk, Reconciles, ChildRefs;
    } else if NamesItsMatches(reg, contract, team, byMatch, key, t, c.matchIds) {
      ChildrenExact(team, byMatch, c.matchIds, key);
      NamedIsLineage(t.lineage, contract, team, byMatch, c, key, TournamentId(team, t.metricId, t.version),
                     t.metricId, t.version);
      hide TournamentLineageOk, Reconciles, ChildRefs, Pool, RuleFor, ChildValues, NamedOnce, EachNamed, NothingElse;
      hide IdsApart, Exact, TournamentId;
    }
  }

  lemma NamedIsLineage(
    refs: seq<Ref>, contract: string, team: string, byMatch: ByMatch, c: Coverage, key: string, own: string,
    mid: string, ver: string)
    requires CoverageOk(byMatch, c) && own == TournamentId(team, mid, ver)
    requires Exact(team, byMatch, c.matchIds, key, ChildRefs(team, byMatch, c.matchIds, key))
    requires NamedOnce(refs, own, "", contract) && EachNamed(refs, contract, team, byMatch, key)
    requires NothingElse(refs, own, team, byMatch, key)
    ensures TournamentLineageOk(refs, own, ChildRefs(team, byMatch, c.matchIds, key), contract)
  {
    var children := ChildRefs(team, byMatch, c.matchIds, key);
    forall id | id in children
      ensures id != own && CountId(refs, id) == 1
    {
      var m := children[id];
      assert IsChild(team, byMatch, c.matchIds, key, id, m);
      TournamentIsNoMatch(team, mid, ver, team, m, Child(byMatch, m, key).metricId, Child(byMatch, m, key).version);
      hide CountId, TournamentId, TeamMatchId;
      NamedCounts(refs, id, m, contract);
    }
    hide CountId, ChildRefs, TournamentId;
    NamedCounts(refs, own, "", contract);
    forall i | 0 <= i < |refs| && IsAggregation(refs[i]) ensures TournamentRefOk(refs[i], own, children, contract) {
      if refs[i].id == own {
        OnlyOne(refs, own, "", contract, i);
      } else {
        assert NamesChild(refs[i], team, byMatch, key);
        var m := refs[i].matchId;
        assert m in c.matchIds;
        OnlyOne(refs, refs[i].id, m, contract, i);
      }
    }
  }

  lemma NamedCounts(refs: seq<Ref>, id: string, m: string, contract: string)
    requires NamedOnce(refs, id, m, contract)
    ensures CountId(refs, id) == 1
  {
    var i :| RefersAt(refs, id, i) && Stamped(refs[i], m, contract);
    OneIsEnough(refs, id, i);
  }

  lemma OnlyOne(refs: seq<Ref>, id: string, m: string, contract: string, i: int)
    requires NamedOnce(refs, id, m, contract) && 0 <= i < |refs| && IsAggregation(refs[i]) && refs[i].id == id
    ensures Stamped(refs[i], m, contract)
  {
    var k :| RefersAt(refs, id, k) && Stamped(refs[k], m, contract);
  }

  /** Totals reconcile when they agree to a billionth, and opportunities exactly. */
  lemma ReconcilesWhen(p: Option<Aggregate>, t: Aggregate)
    ensures Reconciles(p, t) <==>
      && p.Some? && p.value.opportunities == t.opportunities
      && -1.0 <= (p.value.value - t.value) * 1000000000.0 <= 1.0
      && -1.0 <= (p.value.numerator - t.numerator) * 1000000000.0 <= 1.0
      && -1.0 <= (p.value.denominator - t.denominator) * 1000000000.0 <= 1.0
  {}
}
