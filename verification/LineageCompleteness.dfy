/** Every graph that pooling builds passes the lineage checks. */
module LineageCompleteness {
  import opened Wrappers
  import opened Aggregation
  import opened TeamGraph
  import opened LineageCheck
  import opened LineageSoundness

  /** Registered versions, and no aggregation among the sources. */
  ghost predicate Publishable(p: PlayerRow, reg: Registry) {
    forall mid :: mid in p.metrics ==>
                    && mid in reg && p.metrics[mid].version == reg[mid].version
                    && forall r :: r in p.metrics[mid].lineage ==> !IsAggregation(r)
  }

  /** Sources belong to the row's own match, as the loader of stored metrics makes them. */
  ghost predicate Local(p: PlayerRow) {
    forall mid :: mid in p.metrics ==> forall r :: r in p.metrics[mid].lineage ==> r.matchId == p.matchId
  }

  ghost predicate CleanSources(vs: seq<Value>, ver: string) {
    forall i :: 0 <= i < |vs| ==> vs[i].version == ver && forall r :: r in vs[i].lineage ==> !IsAggregation(r)
  }

  ghost predicate LocalSources(vs: seq<Value>, matchId: string) {
    forall i :: 0 <= i < |vs| ==> forall r :: r in vs[i].lineage ==> r.matchId == matchId
  }

  lemma {:induction false} ObservationsClean(rows: seq<PlayerRow>, reg: Registry, mid: string)
    requires forall i :: 0 <= i < |rows| ==> Publishable(rows[i], reg)
    ensures Observations(rows, mid) != [] ==> mid in reg && CleanSources(Observations(rows, mid), reg[mid].version)
  {
    if rows != [] {
      var n := |rows| - 1;
      assert forall i :: 0 <= i < n ==> rows[..n][i] == rows[i];
      ObservationsClean(rows[..n], reg, mid);
      assert Publishable(rows[n], reg);
    }
  }

  lemma {:induction false} ObservationsLocal(rows: seq<PlayerRow>, mid: string, matchId: string)
    requires forall i :: 0 <= i < |rows| ==> Local(rows[i]) && rows[i].matchId == matchId
    ensures LocalSources(Observations(rows, mid), matchId)
  {
    if rows != [] {
      var n := |rows| - 1;
      assert forall i :: 0 <= i < n ==> rows[..n][i] == rows[i];
      ObservationsLocal(rows[..n], mid, matchId);
      assert Local(rows[n]);
    }
  }

  lemma {:induction false} RowsAreThose(players: seq<PlayerRow>, team: string, matchId: string)
    ensures forall p :: p in RowsOf(players, team, matchId) ==> p in players && Plays(p, team, matchId)
  {
    if players != [] {
      RowsAreThose(players[..|players| - 1], team, matchId);
    }
  }

  lemma {:induction false} InsertKeeps(rows: seq<PlayerRow>, p: PlayerRow)
    ensures forall x :: x in InsertRow(rows, p) <==> x in rows || x == p
  {
    if rows != [] && Before(p.accountId, rows[|rows| - 1].accountId) {
      InsertKeeps(rows[..|rows| - 1], p);
      assert rows == rows[..|rows| - 1] + [rows[|rows| - 1]];
    }
  }

  lemma {:induction false} SortKeeps(rows: seq<PlayerRow>)
    ensures forall x :: x in SortRows(rows) <==> x in rows
  {
    if rows != [] {
      SortKeeps(rows[..|rows| - 1]);
      InsertKeeps(SortRows(rows[..|rows| - 1]), rows[|rows| - 1]);
      assert rows == rows[..|rows| - 1] + [rows[|rows| - 1]];
    }
  }

  lemma CountAppend(refs: seq<Ref>, r: Ref, id: string)
    ensures CountId(refs + [r], id) == CountId(refs, id) + (if IsAggregation(r) && r.id == id then 1 else 0)
  {
    assert (refs + [r])[..|refs|] == refs;
  }

  /** A pooled metric of clean rows: typed by the registry, its own reference on top, and
      no other aggregation. */
  ghost predicate PooledClean(
    a: Aggregate, reg: Registry, contract: string, team: string, matchId: string, key: string)
  {
    && Registered(reg, key, a.metricId, a.version)
    && a.metricId == key && a.lineage != []
    && a.lineage[|a.lineage| - 1] == TeamMatchRef(team, matchId, a, contract)
    && forall r :: r in a.lineage[..|a.lineage| - 1] ==> !IsAggregation(r)
  }

  /** The entity check accepts such a metric just when its sources are of the match. */
  lemma CleanEntityPassesWhenLocal(
    a: Aggregate, reg: Registry, contract: string, team: string, matchId: string, key: string)
    requires PooledClean(a, reg, contract, team, matchId, key)
    ensures EntityMetricOk(reg, contract, team, matchId, key, a) <==> forall r :: r in a.lineage[..|a.lineage| - 1] ==>
              r.matchId == matchId
  {
    hide TeamMatchId;
    var n := |a.lineage| - 1;
    var refs, own := a.lineage[..n], a.lineage[n];
    assert a.lineage == refs + [own];
    NotThere(refs, own.id);
    CountAppend(refs, own, own.id);
    hide CountId;
    if forall r :: r in refs ==> r.matchId == matchId {
      forall i | 0 <= i < |a.lineage| ensures EntityRefOk(a.lineage[i], own.id, matchId, contract) {
        if i < n { assert a.lineage[i] == refs[i] && refs[i] in refs; }
      }
    }
    if EntityMetricOk(reg, contract, team, matchId, key, a) {
      forall r | r in refs ensures r.matchId == matchId {
        var i :| 0 <= i < n && refs[i] == r;
        assert EntityRefOk(a.lineage[i], own.id, matchId, contract);
      }
    }
  }

  lemma MergedClean(vs: seq<Value>, ver: string)
    requires CleanSources(vs, ver)
    ensures forall r :: r in MergedLineage(vs) ==> !IsAggregation(r)
  {
    LineageKeepsSources(vs);
    hide MergedLineage;
  }

  lemma MergedLocal(vs: seq<Value>, matchId: string)
    requires LocalSources(vs, matchId)
    ensures forall r :: r in MergedLineage(vs) ==> r.matchId == matchId
  {
    LineageKeepsSources(vs);
    hide MergedLineage;
  }

  lemma MatchMetricIs(reg: Registry, contract: string, team: string, matchId: string, rows: seq<PlayerRow>, key: string)
    requires MatchMetric(reg, contract, team, matchId, rows, key).Some?
    ensures var a, vs := MatchMetric(reg, contract, team, matchId, rows, key).value, Observations(rows, key);
      && vs != [] && a.metricId == key && a.version == vs[0].version
      && |a.lineage| == |MergedLineage(vs)| + 1
      && a.lineage[..|a.lineage| - 1] == MergedLineage(vs)
      && a.lineage[|a.lineage| - 1] == TeamMatchRef(team, matchId, a, contract)
  {
    hide MergedLineage, Observations, TeamMatchId;
  }

  lemma MatchMetricClean(
    reg: Registry, contract: string, team: string, matchId: string, rows: seq<PlayerRow>, key: string)
    requires forall i :: 0 <= i < |rows| ==> Publishable(rows[i], reg)
    requires MatchMetric(reg, contract, team, matchId, rows, key).Some?
    ensures PooledClean(MatchMetric(reg, contract, team, matchId, rows, key).value, reg, contract, team, matchId, key)
  {
    ObservationsClean(rows, reg, key);
    MatchMetricIs(reg, contract, team, matchId, rows, key);
    hide MatchMetric, Observations, MergedLineage, Publishable;
    MergedClean(Observations(rows, key), reg[key].version);
    hide TeamMatchRef;
  }

  lemma MatchMetricLocal(
    reg: Registry, contract: string, team: string, matchId: string, rows: seq<PlayerRow>, key: string)
    requires forall i :: 0 <= i < |rows| ==> Local(rows[i]) && rows[i].matchId == matchId
    requires MatchMetric(reg, contract, team, matchId, rows, key).Some?
    ensures var a := MatchMetric(reg, contract, team, matchId, rows, key).value;
      a.lineage != [] && forall r :: r in a.lineage[..|a.lineage| - 1] ==> r.matchId == matchId
  {
    ObservationsLocal(rows, key, matchId);
    MatchMetricIs(reg, contract, team, matchId, rows, key);
    hide MatchMetric, Observations, MergedLineage, Local, TeamMatchRef;
    MergedLocal(Observations(rows, key), matchId);
  }

  ghost predicate AllPublishable(players: seq<PlayerRow>, reg: Registry) {
    forall i :: 0 <= i < |players| ==> Publishable(players[i], reg)
  }

  ghost predicate AllLocal(players: seq<PlayerRow>) {
    forall i :: 0 <= i < |players| ==> Local(players[i])
  }

  lemma TeamRows(players: seq<PlayerRow>, team: string, m: string)
    ensures var rows := SortRows(RowsOf(players, team, m));
      forall i :: 0 <= i < |rows| ==> rows[i] in players && rows[i].matchId == m
  {
    RowsAreThose(players, team, m);
    SortKeeps(RowsOf(players, team, m));
    hide SortRows, RowsOf;
    var rows := SortRows(RowsOf(players, team, m));
    forall i | 0 <= i < |rows| ensures rows[i] in players && rows[i].matchId == m {
      assert rows[i] in RowsOf(players, team, m);
    }
  }

  lemma ChildIsMatchMetric(
    players: seq<PlayerRow>, reg: Registry, contract: string, team: string, byMatch: ByMatch, tt: TeamTournament,
    m: string, key: string)
    requires TeamBuilt(players, reg, contract, team, byMatch, tt) && Holds(byMatch, m, key)
    ensures MatchMetric(reg, contract, team, m, SortRows(RowsOf(players, team, m)), key) == Some(Child(byMatch, m, key))
  {
    hide SortRows, RowsOf, MatchMetric, IsTournament;
    assert IsTeamMatch(byMatch[m].value, reg, contract, team, m, SortRows(RowsOf(players, team, m)));
  }

  /** Every metric of every built team match is clean. */
  lemma BuiltMatchesClean(
    players: seq<PlayerRow>, reg: Registry, contract: string, team: string, byMatch: ByMatch, tt: TeamTournament,
    m: string, key: string)
    requires AllPublishable(players, reg) && TeamBuilt(players, reg, contract, team, byMatch, tt)
    requires Holds(byMatch, m, key)
    ensures PooledClean(Child(byMatch, m, key), reg, contract, team, m, key)
  {
    TeamRows(players, team, m);
    ChildIsMatchMetric(players, reg, contract, team, byMatch, tt, m, key);
    hide SortRows, RowsOf, Publishable, MatchMetric, PooledClean, TeamBuilt, Child;
    MatchMetricClean(reg, contract, team, m, SortRows(RowsOf(players, team, m)), key);
  }

  /** With local sources it passes the entity check too. */
  lemma BuiltMatchesPass(
    players: seq<PlayerRow>, reg: Registry, contract: string, team: string, byMatch: ByMatch, tt: TeamTournament,
    m: string, key: string)
    requires AllPublishable(players, reg) && AllLocal(players) && TeamBuilt(players, reg, contract, team, byMatch, tt)
    requires Holds(byMatch, m, key)
    ensures EntityMetricOk(reg, contract, team, m, key, Child(byMatch, m, key))
  {
    TeamRows(players, team, m);
    ChildIsMatchMetric(players, reg, contract, team, byMatch, tt, m, key);
    BuiltMatchesClean(players, reg, contract, team, byMatch, tt, m, key);
    hide SortRows, RowsOf, Local, MatchMetric, PooledClean, TeamBuilt, Child, EntityMetricOk, AllPublishable;
    MatchMetricLocal(reg, contract, team, m, SortRows(RowsOf(players, team, m)), key);
    CleanEntityPassesWhenLocal(Child(byMatch, m, key), reg, contract, team, m, key);
  }

  // ---- the tournament's lineage ----

  ghost predicate AllClean(
    byMatch: ByMatch, ids: seq<string>, reg: Registry, contract: string, team: string, key: string)
  {
    forall m :: m in ids && Holds(byMatch, m, key) ==> PooledClean(Child(byMatch, m, key), reg, contract, team, m, key)
  }

  function ChildRef(team: string, byMatch: ByMatch, m: string, key: string, contract: string): Ref
    requires Holds(byMatch, m, key)
  {
    TeamMatchRef(team, m, Child(byMatch, m, key), contract)
  }

  ghost predicate IsChildRef(
    r: Ref, team: string, byMatch: ByMatch, ids: seq<string>, key: string, contract: string, m: string)
  {
    m in ids && Holds(byMatch, m, key) && r == ChildRef(team, byMatch, m, key, contract)
  }

  /** Every aggregation among the references is the own reference of some child. */
  ghost predicate OnlyChildRefs(
    refs: seq<Ref>, team: string, byMatch: ByMatch, ids: seq<string>, key: string, contract: string)
  {
    forall r :: r in refs && IsAggregation(r) ==> exists m :: IsChildRef(r, team, byMatch, ids, key, contract, m)
  }

  ghost predicate ComesFrom(byMatch: ByMatch, ids: seq<string>, key: string, r: Ref, m: string) {
    m in ids && Holds(byMatch, m, key) && r in Child(byMatch, m, key).lineage
  }

  lemma {:induction false} SourcesAreChildren(byMatch: ByMatch, ids: seq<string>, key: string, r: Ref)
    ensures Contributed(ChildValues(byMatch, ids, key), r) <==> exists m :: ComesFrom(byMatch, ids, key, r, m)
  {
    if ids != [] {
      var n := |ids| - 1;
      var m := ids[n];
      SourcesAreChildren(byMatch, ids[..n], key, r);
      assert ids == ids[..n] + [m];
      var values := ChildValues(byMatch, ids[..n], key);
      if Holds(byMatch, m, key) {
        ContributionsGrow(values, ToValue(Child(byMatch, m, key)));
      }
      assert !Holds(byMatch, m, key) ==> ChildValues(byMatch, ids, key) == values;
      hide Contributed;
      if m' :| ComesFrom(byMatch, ids[..n], key, r, m') { assert ComesFrom(byMatch, ids, key, r, m'); }
      if Holds(byMatch, m, key) && r in Child(byMatch, m, key).lineage { assert ComesFrom(byMatch, ids, key, r, m); }
      if m' :| ComesFrom(byMatch, ids, key, r, m') {
        if m' in ids[..n] { assert ComesFrom(byMatch, ids[..n], key, r, m'); }
      }
    }
  }

  /** The aggregations among the merged sources are exactly the children's own references. */
  lemma MergedAggregations(
    reg: Registry, contract: string, team: string, byMatch: ByMatch, ids: seq<string>, key: string)
    requires AllClean(byMatch, ids, reg, contract, team, key)
    ensures var refs := MergedLineage(ChildValues(byMatch, ids, key));
      && OnlyChildRefs(refs, team, byMatch, ids, key, contract)
      && (forall m :: m in ids && Holds(byMatch, m, key) ==>
           HasKey(refs, Key(ChildRef(team, byMatch, m, key, contract))))
      && DistinctKeys(refs)
  {
    var values := ChildValues(byMatch, ids, key);
    LineageKeepsSources(values);
    var refs := MergedLineage(values);
    hide MergedLineage, DistinctKeys;
    forall r | r in refs && IsAggregation(r)
      ensures exists m :: IsChildRef(r, team, byMatch, ids, key, contract, m)
    {
      SourcesAreChildren(byMatch, ids, key, r);
      var m :| ComesFrom(byMatch, ids, key, r, m);
      OnlyOwn(Child(byMatch, m, key), reg, contract, team, m, key, r);
      assert IsChildRef(r, team, byMatch, ids, key, contract, m);
    }
    forall m | m in ids && Holds(byMatch, m, key) ensures HasKey(refs, Key(ChildRef(team, byMatch, m, key, contract))) {
      var r := ChildRef(team, byMatch, m, key, contract);
      OwnInside(Child(byMatch, m, key), reg, contract, team, m, key);
      assert ComesFrom(byMatch, ids, key, r, m);
      SourcesAreChildren(byMatch, ids, key, r);
      KeyFollows(values, r);
    }
  }

  lemma KeyFollows(values: seq<Value>, r: Ref)
    requires Contributed(values, r)
    ensures KeyContributed(values, Key(r))
  {
    var i :| 0 <= i < |values| && r in values[i].lineage;
    assert HasKey(values[i].lineage, Key(r));
  }

  lemma OnlyOwn(a: Aggregate, reg: Registry, contract: string, team: string, m: string, key: string, r: Ref)
    requires PooledClean(a, reg, contract, team, m, key) && r in a.lineage && IsAggregation(r)
    ensures r == TeamMatchRef(team, m, a, contract)
  {
    hide Registered, TeamMatchId;
    var n := |a.lineage| - 1;
    assert a.lineage == a.lineage[..n] + [a.lineage[n]];
  }

  lemma OwnInside(a: Aggregate, reg: Registry, contract: string, team: string, m: string, key: string)
    requires PooledClean(a, reg, contract, team, m, key)
    ensures TeamMatchRef(team, m, a, contract) in a.lineage
  {
    hide Registered, TeamMatchId;
  }

  lemma CleanTyped(reg: Registry, contract: string, team: string, byMatch: ByMatch, ids: seq<string>, key: string)
    requires AllClean(byMatch, ids, reg, contract, team, key)
    ensures Typed(byMatch, ids, key, key, if key in reg then reg[key].version else "")
  {
    hide TeamMatchId;
  }

  /** Each child is named once among the merged sources, and no tournament is. */
  lemma MergedCounts(
    reg: Registry, contract: string, team: string, byMatch: ByMatch, ids: seq<string>, key: string, mid: string,
    ver: string)
    requires AllClean(byMatch, ids, reg, contract, team, key) && IdsApart(team, byMatch, ids, key)
    ensures var refs := MergedLineage(ChildValues(byMatch, ids, key));
      && (forall m :: m in ids && Holds(byMatch, m, key) ==> CountId(refs, ChildId(team, byMatch, m, key)) == 1)
      && CountId(refs, TournamentId(team, mid, ver)) == 0
  {
    var refs := MergedLineage(ChildValues(byMatch, ids, key));
    MergedAggregations(reg, contract, team, byMatch, ids, key);
    hide MergedLineage, ChildValues, AllClean;
    forall m | m in ids && Holds(byMatch, m, key) ensures CountId(refs, ChildId(team, byMatch, m, key)) == 1 {
      CountedOnce(team, contract, byMatch, ids, key, refs, m);
    }
    forall j | 0 <= j < |refs| && IsAggregation(refs[j]) ensures refs[j].id != TournamentId(team, mid, ver) {
      assert refs[j] in refs;
      var m :| IsChildRef(refs[j], team, byMatch, ids, key, contract, m);
      TournamentIsNoMatch(team, mid, ver, team, m, Child(byMatch, m, key).metricId, Child(byMatch, m, key).version);
    }
    NotThere(refs, TournamentId(team, mid, ver));
  }

  lemma CountedOnce(
    team: string, contract: string, byMatch: ByMatch, ids: seq<string>, key: string, refs: seq<Ref>, m: string)
    requires IdsApart(team, byMatch, ids, key) && DistinctKeys(refs) && m in ids && Holds(byMatch, m, key)
    requires OnlyChildRefs(refs, team, byMatch, ids, key, contract)
    requires HasKey(refs, Key(ChildRef(team, byMatch, m, key, contract)))
    ensures CountId(refs, ChildId(team, byMatch, m, key)) == 1
  {
    hide TeamMatchId;
    var own, id := ChildRef(team, byMatch, m, key, contract), ChildId(team, byMatch, m, key);
    var i :| 0 <= i < |refs| && Key(refs[i]) == Key(own);
    forall j | 0 <= j < |refs| && IsAggregation(refs[j]) && refs[j].id == id ensures Key(refs[j]) == Key(own) {
      assert refs[j] in refs;
      var m' :| IsChildRef(refs[j], team, byMatch, ids, key, contract, m');
      assert refs[j].id == ChildId(team, byMatch, m', key);
    }
    OneIsEnough(refs, id, i);
  }

  lemma ChildRefFits(
    team: string, contract: string, byMatch: ByMatch, ids: seq<string>, key: string, children: map<string, string>,
        own: string, m: string)
    requires Exact(team, byMatch, ids, key, children) && m in ids && Holds(byMatch, m, key) && own !in children
    ensures TournamentRefOk(ChildRef(team, byMatch, m, key, contract), own, children, contract)
  {
    hide TeamMatchId;
  }

  lemma OwnRefFits(own: Ref, children: map<string, string>, contract: string)
    requires Stamped(own, "", contract)
    ensures TournamentRefOk(own, own.id, children, contract)
  {}

  lemma TournamentLineageBuilt(
    reg: Registry, contract: string, team: string, byMatch: ByMatch, ids: seq<string>, key: string, mid: string,
        ver: string, own: Ref)
    requires AllClean(byMatch, ids, reg, contract, team, key) && IdsApart(team, byMatch, ids, key) && Distinct(ids)
    requires own == Ref("", AGGREGATION, TournamentId(team, mid, ver), SCORE_RULES, contract, 0)
    ensures TournamentLineageOk(
              MergedLineage(ChildValues(byMatch, ids, key)) +
                  [own], own.id, ChildRefs(team, byMatch, ids, key), contract)
    ensures |ChildRefs(team, byMatch, ids, key)| == |ChildValues(byMatch, ids, key)|
  {
    var refs, children := MergedLineage(ChildValues(byMatch, ids, key)), ChildRefs(team, byMatch, ids, key);
    MergedAggregations(reg, contract, team, byMatch, ids, key);
    MergedCounts(reg, contract, team, byMatch, ids, key, mid, ver);
    ChildrenExact(team, byMatch, ids, key);
    OwnIsNoChild(team, byMatch, ids, key, mid, ver);
    hide AllClean, MergedLineage, ChildValues, ChildRefs, TournamentId, ChildId, HasKey, DistinctKeys, CountId;
    hide TournamentRefOk, ChildRef;
    hide OnlyChildRefs, IdsApart;
    var all := refs + [own];
    CountAppend(refs, own, own.id);
    forall id | id in children && id != own.id ensures CountId(all, id) == 1 {
      CountAppend(refs, own, id);
      assert IsChild(team, byMatch, ids, key, id, children[id]);
    }
    AllRefsFit(team, contract, byMatch, ids, key, children, refs, own);
    hide IsChild;
  }

  lemma AllRefsFit(
    team: string, contract: string, byMatch: ByMatch, ids: seq<string>, key: string, children: map<string, string>,
        refs: seq<Ref>, own: Ref)
    requires Exact(team, byMatch, ids, key, children) && own.id !in children && Stamped(own, "", contract)
    requires OnlyChildRefs(refs, team, byMatch, ids, key, contract)
    ensures forall i :: 0 <= i < |refs + [own]| && IsAggregation((refs + [own])[i]) ==>
                          TournamentRefOk((refs + [own])[i], own.id, children, contract)
  {
    hide Exact, TournamentRefOk, Stamped, ChildRef, Holds;
    var all := refs + [own];
    forall i | 0 <= i < |all| && IsAggregation(all[i]) ensures TournamentRefOk(all[i], own.id, children, contract) {
      if i < |refs| {
        assert all[i] == refs[i] && refs[i] in refs;
        var m :| IsChildRef(refs[i], team, byMatch, ids, key, contract, m);
        ChildRefFits(team, contract, byMatch, ids, key, children, own.id, m);
      } else {
        OwnRefFits(own, children, contract);
      }
    }
  }

  /** Every tournament metric of a built team passes. */
  lemma BuiltMetricPasses(
    players: seq<PlayerRow>, reg: Registry, contract: string, team: string, byMatch: ByMatch, tt: TeamTournament,
    key: string)
    requires AllPublishable(players, reg) && TeamBuilt(players, reg, contract, team, byMatch, tt) && key in tt.metrics
    ensures TournamentMetricOk(reg, contract, team, byMatch, tt.matchIds, key, tt.metrics[key])
  {
    var ids := tt.matchIds;
    forall m | m in ids && Holds(byMatch, m, key)
      ensures PooledClean(Child(byMatch, m, key), reg, contract, team, m, key)
    {
      BuiltMatchesClean(players, reg, contract, team, byMatch, tt, m, key);
    }
    IncreasingDistinct(ids);
    hide AllPublishable, PooledClean, MatchMetric, IsTeamMatch;
    assert AllClean(byMatch, ids, reg, contract, team, key);
    assert TournamentMetric(reg, contract, team, byMatch, ids, key) == Some(tt.metrics[key]);
    hide TeamBuilt;
    CleanMetricPasses(reg, contract, team, byMatch, ids, key);
  }

  lemma CleanMetricPasses(
    reg: Registry, contract: string, team: string, byMatch: ByMatch, ids: seq<string>, key: string)
    requires AllClean(byMatch, ids, reg, contract, team, key) && Distinct(ids)
    requires TournamentMetric(reg, contract, team, byMatch, ids, key).Some?
    ensures TournamentMetricOk(reg, contract, team, byMatch, ids, key,
              TournamentMetric(reg, contract, team, byMatch, ids, key).value)
  {
    var values := ChildValues(byMatch, ids, key);
    var p := Pool(key, RuleFor(reg, key), values).value;
    CleanTyped(reg, contract, team, byMatch, ids, key);
    TypedIdsApart(team, byMatch, ids, key, key, if key in reg then reg[key].version else "");
    PoolRegistered(reg, contract, team, byMatch, ids, key);
    var ver := reg[key].version;
    assert p.metricId == key && p.version == ver && p.lineage == MergedLineage(values) && p.eligible == |values|;
    hide Pool, AllClean, MergedLineage, ChildValues, Typed, TournamentId, IdsApart;
    TournamentLineageBuilt(reg, contract, team, byMatch, ids, key, key, ver, TournamentRef(team, p, contract));
  }

  lemma PoolRegistered(reg: Registry, contract: string, team: string, byMatch: ByMatch, ids: seq<string>, key: string)
    requires AllClean(byMatch, ids, reg, contract, team, key)
    requires Pool(key, RuleFor(reg, key), ChildValues(byMatch, ids, key)).Some?
    ensures key in reg && ChildValues(byMatch, ids, key)[0].version == reg[key].version
  {
    FirstHeld(byMatch, ids, key);
    hide TeamMatchId;
    var m :| m in ids && Holds(byMatch, m, key) && ChildValues(byMatch, ids, key)[0] == ToValue(Child(byMatch, m, key));
    assert PooledClean(Child(byMatch, m, key), reg, contract, team, m, key);
  }

  lemma {:induction false} FirstHeld(byMatch: ByMatch, ids: seq<string>, key: string)
    requires ChildValues(byMatch, ids, key) != []
    ensures exists m :: m in ids && Holds(byMatch, m, key) &&
              ChildValues(byMatch, ids, key)[0] == ToValue(Child(byMatch, m, key))
  {
    var n := |ids| - 1;
    var earlier := ChildValues(byMatch, ids[..n], key);
    if earlier != [] {
      FirstHeld(byMatch, ids[..n], key);
      var m :| m in ids[..n] && Holds(byMatch, m, key) && earlier[0] == ToValue(Child(byMatch, m, key));
      assert m in ids;
    } else {
      assert ids[n] in ids;
    }
  }

  // ---- scoring a corpus ----

  function ScoreTeam(tt: TeamTournament): TeamScore {
    TeamScore(tt.teamId, tt.metrics, Coverage(tt.eligible, tt.matchIds))
  }

  predicate Played(players: seq<PlayerRow>, matchId: string) {
    exists i :: 0 <= i < |players| && players[i].matchId == matchId
  }

  /** The scores of a built corpus. */
  ghost predicate ScoredFrom(
    cs: CorpusScores, players: seq<PlayerRow>, reg: Registry, contract: string, teams: map<string, TeamTournament>)
  {
    && cs.teamVersion == contract
    && (forall m :: m in cs.matches <==> Played(players, m))
    && cs.teamMatches.Keys == teams.Keys
    && (forall t :: t in teams ==> TeamBuilt(players, reg, contract, t, cs.teamMatches[t], teams[t]))
    && DistinctTeams(cs.teams)
    && (forall i :: 0 <= i < |cs.teams| ==>
         cs.teams[i].Some? && cs.teams[i].value.teamId in teams &&
         cs.teams[i].value == ScoreTeam(teams[cs.teams[i].value.teamId]))
    && (forall t :: t in teams ==> Listed(cs.teams, t))
  }

  lemma BuiltEntitiesPass(
    cs: CorpusScores, players: seq<PlayerRow>, reg: Registry, contract: string, teams: map<string, TeamTournament>)
    requires ScoredFrom(cs, players, reg, contract, teams) && AllPublishable(players, reg) && AllLocal(players)
    ensures EntitiesOk(cs, reg)
  {
    forall t | t in cs.teamMatches ensures TeamEntitiesOk(cs, reg, t, cs.teamMatches[t]) {
      var byMatch := cs.teamMatches[t];
      assert TeamBuilt(players, reg, contract, t, byMatch, teams[t]);
      forall m | m in byMatch ensures EntityOk(cs, reg, t, m, byMatch[m]) {
        hide TeamBuilt, AllPublishable, AllLocal, EntityOk, DistinctTeams, Listed;
        BuiltEntityPasses(cs, players, reg, t, byMatch, teams[t], m);
      }
    }
  }

  lemma BuiltEntityPasses(
    cs: CorpusScores, players: seq<PlayerRow>, reg: Registry, team: string, byMatch: ByMatch, tt: TeamTournament,
    m: string)
    requires TeamBuilt(players, reg, cs.teamVersion, team, byMatch, tt) && AllPublishable(players, reg)
    requires AllLocal(players) && m in byMatch
    requires forall x :: Played(players, x) ==> x in cs.matches
    ensures EntityOk(cs, reg, team, m, byMatch[m])
  {
    var e := byMatch[m].value;
    forall key | key in e.metrics ensures EntityMetricOk(reg, cs.teamVersion, team, m, key, e.metrics[key]) {
      BuiltMatchesPass(players, reg, cs.teamVersion, team, byMatch, tt, m, key);
      hide EntityMetricOk, AllPublishable, AllLocal, TeamBuilt;
    }
    hide EntityMetricOk, AllPublishable, AllLocal, RowsOf, MatchMetric, IsTournament;
    assert HasMatch(players, team, m);
    var i :| 0 <= i < |players| && Plays(players[i], team, m);
    assert Played(players, m);
  }

  lemma BuiltTournamentsPass(
    cs: CorpusScores, players: seq<PlayerRow>, reg: Registry, contract: string, teams: map<string, TeamTournament>)
    requires ScoredFrom(cs, players, reg, contract, teams) && AllPublishable(players, reg)
    ensures TournamentsOk(cs, reg)
  {
    forall i | 0 <= i < |cs.teams|
      ensures TeamOk(reg, contract, MatchesOf(cs, cs.teams[i].value.teamId), cs.teams[i].value)
    {
      BuiltTeamPasses(
        players, reg, contract, cs.teams[i].value.teamId, cs.teamMatches[cs.teams[i].value.teamId],
        teams[cs.teams[i].value.teamId]);
    }
    hide TeamOk, TeamBuilt, AllPublishable;
  }

  lemma BuiltTeamPasses(
    players: seq<PlayerRow>, reg: Registry, contract: string, team: string, byMatch: ByMatch, tt: TeamTournament)
    requires TeamBuilt(players, reg, contract, team, byMatch, tt) && AllPublishable(players, reg)
    ensures TeamOk(reg, contract, byMatch, ScoreTeam(tt))
  {
    BuiltIsCovered(players, reg, contract, team, byMatch, tt);
    hide TournamentMetricOk, CoverageOk, AllPublishable, TeamBuilt;
    forall key | key in tt.metrics
      ensures TournamentMetricOk(reg, contract, team, byMatch, tt.matchIds, key, tt.metrics[key])
    {
      BuiltMetricPasses(players, reg, contract, team, byMatch, tt, key);
    }
  }

  lemma BuiltIsCovered(
    players: seq<PlayerRow>, reg: Registry, contract: string, team: string, byMatch: ByMatch, tt: TeamTournament)
    requires TeamBuilt(players, reg, contract, team, byMatch, tt)
    ensures CoverageOk(byMatch, ScoreTeam(tt).coverage) && ScoreTeam(tt).teamId == team
  {
    IncreasingDistinct(tt.matchIds);
    hide IsTeamMatch, TournamentMetric, Increasing, RowsOf, SortRows, AbsencesAre, TeamInOrder, HasMatch;
  }

  /** Builds, scores and checks a corpus: from publishable rows the tournament check always
      passes, and when their sources are local both do. */
  method ComputeScores(players: seq<PlayerRow>, reg: Registry, contract: string) returns (cs: CorpusScores, ok: bool)
    ensures ok <==> EntitiesOk(cs, reg) && TournamentsOk(cs, reg)
    ensures AllPublishable(players, reg) ==> TournamentsOk(cs, reg)
    ensures AllPublishable(players, reg) && AllLocal(players) ==> ok
    ensures exists teams :: ScoredFrom(cs, players, reg, contract, teams)
  {
    var c := new Corpus(players, reg, contract);
    c.BuildTeams();
    var teamMatches, tournaments := c.teamMatches, c.teams;
    hide TeamBuilt, HasTeam, AllPublishable, AllLocal, EntitiesOk, TournamentsOk, DistinctTeams, Listed;
    BuiltTeamsKnown(players, reg, contract, teamMatches, tournaments);
    var teams := ScoreAll(tournaments);
    var matches := PlayedMatches(players);
    cs := CorpusScores(matches, teamMatches, teams, contract);
    assert ScoredFrom(cs, players, reg, contract, tournaments);
    ghost var publishable, isLocal := AllPublishable(players, reg), AllLocal(players);
    if publishable {
      BuiltTournamentsPass(cs, players, reg, contract, tournaments);
      if isLocal { BuiltEntitiesPass(cs, players, reg, contract, tournaments); }
    }
    ok := ValidateTeamMatchEntities(cs, reg);
    if ok {
      ok := ValidateTeamTournamentAggregates(cs, reg);
    }
  }

  method PlayedMatches(players: seq<PlayerRow>) returns (matches: set<string>)
    ensures forall m :: m in matches <==> Played(players, m)
  {
    matches := {};
    for i := 0 to |players|
      invariant forall m :: m in matches <==> Played(players[..i], m)
    {
      PlayedNext(players, i);
      matches := matches + {players[i].matchId};
    }
    assert players[..|players|] == players;
  }

  lemma BuiltTeamsKnown(
    players: seq<PlayerRow>, reg: Registry, contract: string, teamMatches: map<string, ByMatch>, teams: map<string,
    TeamTournament>)
    requires teamMatches.Keys == teams.Keys
    requires forall t :: t in teams ==> TeamBuilt(players, reg, contract, t, teamMatches[t], teams[t])
    ensures forall t :: t in teams ==> teams[t].teamId == t
  {}

  lemma PlayedNext(players: seq<PlayerRow>, i: nat)
    requires i < |players|
    ensures forall m :: Played(players[..i + 1], m) <==> Played(players[..i], m) || m == players[i].matchId
  {
    var now, next := players[..i], players[..i + 1];
    assert forall j :: 0 <= j < i ==> next[j] == now[j];
    assert next[i] == players[i];
    forall m | Played(now, m) ensures Played(next, m) {
      var j :| 0 <= j < |now| && now[j].matchId == m;
      assert next[j].matchId == m;
    }
    assert Played(next, players[i].matchId);
  }

  /** One score per team, in increasing order of id. */
  method ScoreAll(tournaments: map<string, TeamTournament>) returns (teams: seq<Option<TeamScore>>)
    ensures forall i :: 0 <= i < |teams| ==> teams[i].Some?
    ensures (forall t :: t in tournaments ==> tournaments[t].teamId == t) ==>
              && DistinctTeams(teams)
              && (forall i :: 0 <= i < |teams| ==>
                   teams[i].value.teamId in tournaments &&
                   teams[i].value == ScoreTeam(tournaments[teams[i].value.teamId]))
              && (forall t :: t in tournaments ==> Listed(teams, t))
  {
    var ids := SortedKeys(tournaments.Keys);
    IncreasingDistinct(ids);
    hide Increasing;
    teams := [];
    for i := 0 to |ids|
      invariant |teams| == i
      invariant forall j :: 0 <= j < i ==> ids[j] in tournaments && teams[j] == Some(ScoreTeam(tournaments[ids[j]]))
    {
      assert ids[i] in ids;
      teams := teams + [Some(ScoreTeam(tournaments[ids[i]]))];
    }
    forall t | t in tournaments && tournaments[t].teamId == t ensures Listed(teams, t) {
      assert t in ids;
      var j :| 0 <= j < |ids| && ids[j] == t;
      assert teams[j].value.teamId == t;
    }
  }
}
