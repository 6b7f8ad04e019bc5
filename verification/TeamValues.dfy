/** A team's published value against all its rows pooled at once. */
module TeamValues {
  import opened Wrappers
  import opened Aggregation
  import opened TwoLevel
  import opened TeamGraph

  /** The team's observations of a metric, match by match. */
  function TeamGroups(players: seq<PlayerRow>, team: string, ids: seq<string>, mid: string): (groups: seq<seq<Value>>)
    ensures |groups| == |ids|
  {
    seq(|ids|, i requires 0 <= i < |ids| => Observations(SortRows(RowsOf(players, team, ids[i])), mid))
  }

  ghost function GroupRefs(
    reg: Registry, contract: string, team: string, ids: seq<string>, groups: seq<seq<Value>>, mid: string)
    : (refs: seq<Ref>)
    requires |ids| == |groups|
    ensures |refs| == |groups|
  {
    seq(|ids|, i requires 0 <= i < |ids| =>
      var p := Pool(mid, RuleFor(reg, mid), groups[i]);
      if p.Some? then TeamMatchRef(team, ids[i], p.value, contract) else Ref("", "", "", "", "", 0))
  }

  lemma {:induction false} ChildrenArePools(
    players: seq<PlayerRow>, reg: Registry, contract: string, team: string, byMatch: ByMatch, ids: seq<string>,
    mid: string)
    requires forall m :: m in ids ==>
               m in byMatch && byMatch[m].Some? &&
               IsTeamMatch(byMatch[m].value, reg, contract, team, m, SortRows(RowsOf(players, team, m)))
    ensures var groups := TeamGroups(players, team, ids, mid);
      ChildValues(byMatch, ids, mid) ==
          Pools(mid, RuleFor(reg, mid), groups, GroupRefs(reg, contract, team, ids, groups, mid))
  {
    if ids != [] {
      var n := |ids| - 1;
      var m := ids[n];
      assert m in ids;
      var groups, rule := TeamGroups(players, team, ids, mid), RuleFor(reg, mid);
      var owns := GroupRefs(reg, contract, team, ids, groups, mid);
      ChildrenArePools(players, reg, contract, team, byMatch, ids[..n], mid);
      LastGroupIs(players, reg, contract, team, ids, mid);
      LastChildIs(reg, contract, team, byMatch, m, SortRows(RowsOf(players, team, m)), mid);
      LastPool(mid, rule, groups, owns);
      hide Pool, Publishes, Pools, SortRows, RowsOf, Observations, TeamMatchRef, TeamGroups, GroupRefs, IsTeamMatch;
      hide Child, Holds;
    }
  }

  lemma LastGroupIs(
    players: seq<PlayerRow>, reg: Registry, contract: string, team: string, ids: seq<string>, mid: string)
    requires ids != []
    ensures var n := |ids| - 1;
      var groups := TeamGroups(players, team, ids, mid);
      var owns := GroupRefs(reg, contract, team, ids, groups, mid);
      && |groups| == |owns| == n + 1
      && groups[..n] == TeamGroups(players, team, ids[..n], mid)
      && owns[..n] == GroupRefs(reg, contract, team, ids[..n], groups[..n], mid)
      && groups[n] == Observations(SortRows(RowsOf(players, team, ids[n])), mid)
      && (Pool(mid, RuleFor(reg, mid), groups[n]).Some? ==>
           owns[n] == TeamMatchRef(team, ids[n], Pool(mid, RuleFor(reg, mid), groups[n]).value, contract))
  {
    hide Pool, SortRows, RowsOf, Observations, TeamMatchRef;
  }

  /** A match holds a metric just when its observations publish. */
  lemma LastChildIs(
    reg: Registry, contract: string, team: string, byMatch: ByMatch, m: string, rows: seq<PlayerRow>, mid: string)
    requires m in byMatch && byMatch[m].Some? && IsTeamMatch(byMatch[m].value, reg, contract, team, m, rows)
    ensures var g, rule := Observations(rows, mid), RuleFor(reg, mid);
      && (Holds(byMatch, m, mid) <==> Publishes(mid, rule, g))
      && (Publishes(mid, rule, g) ==> Pool(mid, rule, g).Some?)
      && (Holds(byMatch, m, mid) ==>
           ToValue(Child(byMatch, m, mid)) ==
           AsValue(Pool(mid, rule, g).value, TeamMatchRef(team, m, Pool(mid, rule, g).value, contract)))
  {
    PoolWhen(mid, RuleFor(reg, mid), Observations(rows, mid));
    hide Pool, Publishes, Observations, TeamMatchRef;
    var tm := byMatch[m].value;
    assert (if mid in tm.metrics then Some(tm.metrics[mid]) else None) ==
             MatchMetric(reg, contract, team, m, rows, mid);
  }

  /** What a team's tournament reports is what its matches pooled in two levels report, so
      that every law of two-level pooling holds of it. */
  lemma TeamValueIsTwoLevel(
    players: seq<PlayerRow>, reg: Registry, contract: string, team: string, byMatch: ByMatch, tt: TeamTournament,
        mid: string)
    requires TeamBuilt(players, reg, contract, team, byMatch, tt)
    ensures var groups := TeamGroups(players, team, tt.matchIds, mid);
      var two := Tournament(mid, RuleFor(reg, mid), groups, GroupRefs(reg, contract, team, tt.matchIds, groups, mid));
      && (mid in tt.metrics <==> two.Some?)
      && (two.Some? ==> tt.metrics[mid].value == two.value.value)
      && (two.Some? ==> tt.metrics[mid].opportunities == two.value.opportunities)
  {
    MetricsAreThose(players, reg, contract, team, byMatch, tt, mid);
    TournamentMetricIs(reg, contract, team, byMatch, tt.matchIds, mid);
    hide Pool, Pools, ChildValues, TeamGroups, GroupRefs, TeamBuilt, TournamentMetric, IsTeamMatch;
    ChildrenArePools(players, reg, contract, team, byMatch, tt.matchIds, mid);
  }

  /** The published tournament value of a team is the value of all its rows pooled at once,
      for sums, seconds and maxima; for rates when every match has a positive denominator,
      and for raw averages when the total denominator is positive. */
  lemma TeamValueIsFlat(
    players: seq<PlayerRow>, reg: Registry, contract: string, team: string, byMatch: ByMatch, tt: TeamTournament,
    mid: string, ver: string)
    requires TeamBuilt(players, reg, contract, team, byMatch, tt)
    requires AllUniform(TeamGroups(players, team, tt.matchIds, mid), mid, ver)
    requires RuleFor(reg, mid) == Rate ==> forall i :: 0 <= i < |tt.matchIds| ==>
               RateDefined(TeamGroups(players, team, tt.matchIds, mid)[i])
    ensures var flat := Pool(mid, RuleFor(reg, mid), Flatten(TeamGroups(players, team, tt.matchIds, mid)));
      && (mid in tt.metrics <==> flat.Some?)
      && (mid in tt.metrics ==> tt.metrics[mid].opportunities == flat.value.opportunities)
      && (mid in tt.metrics && (RuleFor(reg, mid) == Repooled ==>
           SumDenominators(Flatten(TeamGroups(players, team, tt.matchIds, mid))) > 0.0) ==>
            tt.metrics[mid].value == flat.value.value)
  {
    var groups := TeamGroups(players, team, tt.matchIds, mid);
    TeamValueIsTwoLevel(players, reg, contract, team, byMatch, tt, mid);
    hide Pool, Pools, TeamGroups, GroupRefs, AllUniform, Flatten, TeamBuilt, RateDefined, SumDenominators, Tournament;
    TwoLevelsAgree(mid, RuleFor(reg, mid), groups, GroupRefs(reg, contract, team, tt.matchIds, groups, mid), ver);
  }

  lemma MetricsAreThose(
    players: seq<PlayerRow>, reg: Registry, contract: string, team: string, byMatch: ByMatch, tt: TeamTournament,
    mid: string)
    requires TeamBuilt(players, reg, contract, team, byMatch, tt)
    ensures (if mid in tt.metrics then Some(tt.metrics[mid]) else None) ==
              TournamentMetric(reg, contract, team, byMatch, tt.matchIds, mid)
    ensures forall m :: m in tt.matchIds ==>
              m in byMatch && byMatch[m].Some? &&
              IsTeamMatch(byMatch[m].value, reg, contract, team, m, SortRows(RowsOf(players, team, m)))
  {
    hide TournamentMetric, IsTeamMatch, RowsOf, SortRows, Increasing;
  }

  lemma TournamentMetricIs(
    reg: Registry, contract: string, team: string, byMatch: ByMatch, ids: seq<string>, mid: string)
    ensures var p, t := Pool(mid, RuleFor(reg, mid), ChildValues(byMatch, ids, mid)),
              TournamentMetric(reg, contract, team, byMatch, ids, mid);
      && (t.Some? <==> p.Some?)
      && (p.Some? ==> t.value.value == p.value.value && t.value.opportunities == p.value.opportunities)
  {
    hide Pool, TournamentRef;
  }
}
