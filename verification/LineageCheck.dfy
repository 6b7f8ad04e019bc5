/** The checks a scored corpus must pass before it is written: team-match entities first,
    then team tournaments against them. */
module LineageCheck {
  import opened Wrappers
  import opened Aggregation
  import opened TeamGraph

  datatype Coverage = Coverage(eligible: int, matchIds: seq<string>)

  datatype TeamScore = TeamScore(teamId: string, aggregated: map<string, Aggregate>, coverage: Coverage)

  /** `matches` are the persisted matches. Team entries may be absent content. */
  datatype CorpusScores = CorpusScores(
    matches: set<string>, teamMatches: map<string, ByMatch>, teams: seq<Option<TeamScore>>, teamVersion: string)

  const TOLERANCE := 0.000000001

  // ---- what a metric must look like ----

  /** An empty map key leaves the identity unchecked. */
  predicate Registered(reg: Registry, key: string, mid: string, ver: string) {
    (key != "" ==> key == mid) && mid in reg && ver == reg[mid].version
  }

  predicate IsAggregation(r: Ref) {
    r.kind == AGGREGATION
  }

  /** How many aggregation references carry this id. */
  function CountId(refs: seq<Ref>, id: string): nat {
    if refs == [] then 0
    else
      var r := refs[|refs| - 1];
      CountId(refs[..|refs| - 1], id) + (if IsAggregation(r) && r.id == id then 1 else 0)
  }

  predicate Stamped(r: Ref, matchId: string, contract: string) {
    r.matchId == matchId && r.ruleVersion == SCORE_RULES && r.contractVersion == contract
  }

  // ---- team-match entities ----

  predicate EntityRefOk(r: Ref, id: string, matchId: string, contract: string) {
    if IsAggregation(r) then r.id == id && Stamped(r, matchId, contract) else r.matchId == matchId
  }

  ghost predicate EntityLineageOk(refs: seq<Ref>, id: string, matchId: string, contract: string) {
    (forall i :: 0 <= i < |refs| ==> EntityRefOk(refs[i], id, matchId, contract)) && CountId(refs, id) == 1
  }

  ghost predicate EntityMetricOk(
    reg: Registry, contract: string, team: string, matchId: string, key: string, a: Aggregate)
  {
    && Registered(reg, key, a.metricId, a.version)
    && EntityLineageOk(a.lineage, TeamMatchId(team, matchId, a.metricId, a.version), matchId, contract)
  }

  predicate EntityHeaderOk(cs: CorpusScores, team: string, matchId: string, e: TeamMatch) {
    && e.teamId == team && e.matchId == matchId && matchId in cs.matches
    && e.ruleVersion == SCORE_RULES && e.contractVersion == cs.teamVersion
  }

  ghost predicate EntityOk(cs: CorpusScores, reg: Registry, team: string, matchId: string, e: Option<TeamMatch>) {
    && e.Some?
    && EntityHeaderOk(cs, team, matchId, e.value)
    && forall key :: key in e.value.metrics ==>
         EntityMetricOk(reg, cs.teamVersion, team, matchId, key, e.value.metrics[key])
  }

  ghost predicate TeamEntitiesOk(cs: CorpusScores, reg: Registry, team: string, byMatch: ByMatch) {
    forall m :: m in byMatch ==> EntityOk(cs, reg, team, m, byMatch[m])
  }

  ghost predicate EntitiesOk(cs: CorpusScores, reg: Registry) {
    forall team :: team in cs.teamMatches ==> TeamEntitiesOk(cs, reg, team, cs.teamMatches[team])
  }

  method ValidateTeamMatchEntities(cs: CorpusScores, reg: Registry) returns (ok: bool)
    ensures ok <==> EntitiesOk(cs, reg)
  {
    var rest := cs.teamMatches.Keys;
    hide TeamEntitiesOk;
    while rest != {}
      invariant rest <= cs.teamMatches.Keys
      invariant forall team :: team in cs.teamMatches && team !in rest ==>
                  TeamEntitiesOk(cs, reg, team, cs.teamMatches[team])
    {
      var team :| team in rest;
      rest := rest - {team};
      var fine := ValidateEntitiesOf(cs, reg, team, cs.teamMatches[team]);
      if !fine {
        return false;
      }
    }
    return true;
  }

  method ValidateEntitiesOf(cs: CorpusScores, reg: Registry, team: string, byMatch: ByMatch) returns (ok: bool)
    ensures ok <==> TeamEntitiesOk(cs, reg, team, byMatch)
  {
    var rest := byMatch.Keys;
    hide EntityOk;
    while rest != {}
      invariant rest <= byMatch.Keys
      invariant forall m :: m in byMatch && m !in rest ==> EntityOk(cs, reg, team, m, byMatch[m])
    {
      var m :| m in rest;
      rest := rest - {m};
      var fine := ValidateEntity(cs, reg, team, m, byMatch[m]);
      if !fine {
        return false;
      }
    }
    return true;
  }

  method ValidateEntity(
    cs: CorpusScores, reg: Registry, team: string, matchId: string, e: Option<TeamMatch>) returns (ok: bool)
    ensures ok <==> EntityOk(cs, reg, team, matchId, e)
  {
    if e.None? {
      return false;
    }
    var entity := e.value;
    if entity.teamId != team || entity.matchId != matchId || matchId !in cs.matches {
      return false;
    }
    if entity.ruleVersion != SCORE_RULES || entity.contractVersion != cs.teamVersion {
      return false;
    }
    var rest := entity.metrics.Keys;
    hide Registered, EntityLineageOk;
    while rest != {}
      invariant rest <= entity.metrics.Keys
      invariant forall key :: key in entity.metrics && key !in rest ==>
                  EntityMetricOk(reg, cs.teamVersion, team, matchId, key, entity.metrics[key])
    {
      var key :| key in rest;
      rest := rest - {key};
      var v := entity.metrics[key];
      if !Registered(reg, key, v.metricId, v.version) {
        return false;
      }
      var fine := ValidateEntityLineage(
        v.lineage, TeamMatchId(team, matchId, v.metricId, v.version), matchId, cs.teamVersion);
      if !fine {
        return false;
      }
    }
    return true;
  }

  method ValidateEntityLineage(refs: seq<Ref>, id: string, matchId: string, contract: string) returns (ok: bool)
    ensures ok <==> EntityLineageOk(refs, id, matchId, contract)
  {
    var own := 0;
    for i := 0 to |refs|
      invariant forall j :: 0 <= j < i ==> EntityRefOk(refs[j], id, matchId, contract)
      invariant own == CountId(refs[..i], id)
    {
      assert refs[..i + 1][..i] == refs[..i];
      var r := refs[i];
      if r.kind == AGGREGATION {
        if r.id != id || r.matchId != matchId {
          return false;
        }
        if r.ruleVersion != SCORE_RULES || r.contractVersion != contract {
          return false;
        }
        own := own + 1;
      } else if r.matchId != matchId {
        return false;
      }
    }
    assert refs[..|refs|] == refs;
    return own == 1;
  }

  // ---- team tournaments ----

  /** The expected children: id to match. Two matches with one id leave one entry. */
  function ChildRefs(team: string, byMatch: ByMatch, ids: seq<string>, key: string): map<string, string> {
    if ids == [] then map[]
    else
      var n := |ids| - 1;
      var earlier, m := ChildRefs(team, byMatch, ids[..n], key), ids[n];
      if Holds(byMatch, m, key) then earlier[ChildId(team, byMatch, m, key) := m] else earlier
  }

  function ChildId(team: string, byMatch: ByMatch, m: string, key: string): string
    requires Holds(byMatch, m, key)
  {
    TeamMatchId(team, m, Child(byMatch, m, key).metricId, Child(byMatch, m, key).version)
  }

  predicate TournamentRefOk(r: Ref, own: string, children: map<string, string>, contract: string) {
    if r.id == own then Stamped(r, "", contract)
    else r.id in children && Stamped(r, children[r.id], contract)
  }

  /** Its own reference once, every child once, and no other aggregation. */
  ghost predicate TournamentLineageOk(refs: seq<Ref>, own: string, children: map<string, string>, contract: string) {
    && (forall i :: 0 <= i < |refs| && IsAggregation(refs[i]) ==> TournamentRefOk(refs[i], own, children, contract))
    && CountId(refs, own) == 1
    && (forall id :: id in children && id != own ==> CountId(refs, id) == 1)
    && own !in children
  }

  predicate Close(a: real, b: real) {
    -TOLERANCE <= a - b <= TOLERANCE
  }

  predicate Reconciles(p: Option<Aggregate>, t: Aggregate) {
    && p.Some?
    && Close(p.value.value, t.value) && Close(p.value.numerator, t.numerator) &&
         Close(p.value.denominator, t.denominator)
    && p.value.opportunities == t.opportunities
  }

  ghost predicate TournamentMetricOk(
    reg: Registry, contract: string, team: string, byMatch: ByMatch, ids: seq<string>, key: string, t: Aggregate)
  {
    var children := ChildRefs(team, byMatch, ids, key);
    && Registered(reg, key, t.metricId, t.version)
    && |children| == t.eligible
    && TournamentLineageOk(t.lineage, TournamentId(team, t.metricId, t.version), children, contract)
    && Reconciles(Pool(key, RuleFor(reg, key), ChildValues(byMatch, ids, key)), t)
  }

  ghost predicate Distinct(ids: seq<string>) {
    forall i, j :: 0 <= i < j < |ids| ==> ids[i] != ids[j]
  }

  ghost predicate CoverageOk(byMatch: ByMatch, c: Coverage) {
    && Distinct(c.matchIds) && |c.matchIds| == c.eligible
    && (forall m :: m in byMatch ==> m in c.matchIds)
    && (forall i :: 0 <= i < |c.matchIds| ==> c.matchIds[i] in byMatch && byMatch[c.matchIds[i]].Some?)
  }

  ghost predicate TeamOk(reg: Registry, contract: string, byMatch: ByMatch, team: TeamScore) {
    && CoverageOk(byMatch, team.coverage)
    && forall key :: key in team.aggregated ==>
         TournamentMetricOk(reg, contract, team.teamId, byMatch, team.coverage.matchIds, key, team.aggregated[key])
  }

  function MatchesOf(cs: CorpusScores, team: string): ByMatch {
    if team in cs.teamMatches then cs.teamMatches[team] else map[]
  }

  ghost predicate Listed(teams: seq<Option<TeamScore>>, team: string) {
    exists i :: 0 <= i < |teams| && teams[i].Some? && teams[i].value.teamId == team
  }

  ghost predicate DistinctTeams(teams: seq<Option<TeamScore>>) {
    forall i, j :: 0 <= i < j < |teams| && teams[i].Some? && teams[j].Some? ==>
        teams[i].value.teamId != teams[j].value.teamId
  }

  ghost predicate TournamentsOk(cs: CorpusScores, reg: Registry) {
    && DistinctTeams(cs.teams)
    && (forall i :: 0 <= i < |cs.teams| && cs.teams[i].Some? ==>
          TeamOk(reg, cs.teamVersion, MatchesOf(cs, cs.teams[i].value.teamId), cs.teams[i].value))
    && (forall team :: team in cs.teamMatches ==> Listed(cs.teams, team))
  }

  method ValidateTeamTournamentAggregates(cs: CorpusScores, reg: Registry) returns (ok: bool)
    ensures ok <==> TournamentsOk(cs, reg)
  {
    var seen: set<string> := {};
    hide TeamOk;
    for i := 0 to |cs.teams|
      invariant forall t :: t in seen <==> Listed(cs.teams[..i], t)
      invariant forall j, k :: 0 <= j < k < i && cs.teams[j].Some? && cs.teams[k].Some? ==>
                  cs.teams[j].value.teamId != cs.teams[k].value.teamId
      invariant forall j :: 0 <= j < i && cs.teams[j].Some? ==>
                  TeamOk(reg, cs.teamVersion, MatchesOf(cs, cs.teams[j].value.teamId), cs.teams[j].value)
    {
      assert cs.teams[..i + 1] == cs.teams[..i] + [cs.teams[i]];
      ListedNext(cs.teams[..i], cs.teams[i]);
      if cs.teams[i].None? {
        continue;
      }
      var team := cs.teams[i].value;
      if team.teamId in seen {
        SeenTwice(cs.teams, i);
        return false;
      }
      seen := seen + {team.teamId};
      var fine := ValidateTeam(cs, reg, team);
      if !fine {
        return false;
      }
    }
    assert cs.teams[..|cs.teams|] == cs.teams;
    ok := cs.teamMatches.Keys <= seen;
  }

  lemma ListedNext(teams: seq<Option<TeamScore>>, t: Option<TeamScore>)
    ensures forall id :: Listed(teams + [t], id) <==> Listed(teams, id) || (t.Some? && t.value.teamId == id)
  {
    var all := teams + [t];
    assert all[|teams|] == t && forall i :: 0 <= i < |teams| ==> all[i] == teams[i];
    forall id | Listed(teams, id) ensures Listed(all, id) {
      var i :| 0 <= i < |teams| && teams[i].Some? && teams[i].value.teamId == id;
      assert all[i].Some?;
    }
    if t.Some? { assert all[|teams|].value.teamId == t.value.teamId; }
  }

  lemma SeenTwice(teams: seq<Option<TeamScore>>, i: nat)
    requires i < |teams| && teams[i].Some? && Listed(teams[..i], teams[i].value.teamId)
    ensures !DistinctTeams(teams)
  {
    var j :| 0 <= j < i && teams[..i][j].Some? && teams[..i][j].value.teamId == teams[i].value.teamId;
    assert teams[j].value.teamId == teams[i].value.teamId;
  }

  method ValidateTeam(cs: CorpusScores, reg: Registry, team: TeamScore) returns (ok: bool)
    ensures ok <==> TeamOk(reg, cs.teamVersion, MatchesOf(cs, team.teamId), team)
  {
    var byMatch := MatchesOf(cs, team.teamId);
    var covered := ValidateCoverage(byMatch, team.coverage);
    if !covered {
      return false;
    }
    var rest := team.aggregated.Keys;
    hide TournamentMetricOk, CoverageOk;
    while rest != {}
      invariant rest <= team.aggregated.Keys
      invariant forall key :: key in team.aggregated && key !in rest ==>
                  TournamentMetricOk(reg, cs.teamVersion, team.teamId, byMatch, team.coverage.matchIds, key,
                      team.aggregated[key])
    {
      var key :| key in rest;
      rest := rest - {key};
      var fine := ValidateTournamentMetric(
        reg, cs.teamVersion, team.teamId, byMatch, team.coverage.matchIds, key, team.aggregated[key]);
      if !fine {
        return false;
      }
    }
    return true;
  }

  method ValidateCoverage(byMatch: ByMatch, c: Coverage) returns (ok: bool)
    ensures ok <==> CoverageOk(byMatch, c)
  {
    var distinct, allowed := AllowedMatches(c.matchIds);
    hide Distinct;
    if !distinct || |allowed| != c.eligible || !(byMatch.Keys <= allowed) {
      return false;
    }
    for i := 0 to |c.matchIds|
      invariant forall j :: 0 <= j < i ==> c.matchIds[j] in byMatch && byMatch[c.matchIds[j]].Some?
    {
      if c.matchIds[i] !in byMatch || byMatch[c.matchIds[i]].None? {
        return false;
      }
    }
    return true;
  }

  method AllowedMatches(ids: seq<string>) returns (distinct: bool, allowed: set<string>)
    ensures distinct <==> Distinct(ids)
    ensures distinct ==> |allowed| == |ids| && forall m :: m in allowed <==> m in ids
  {
    allowed := {};
    for i := 0 to |ids|
      invariant forall m :: m in allowed <==> m in ids[..i]
      invariant Distinct(ids[..i]) && |allowed| == i
    {
      assert ids[..i + 1] == ids[..i] + [ids[i]];
      if ids[i] in allowed {
        Repeated(ids, i);
        return false, allowed;
      }
      allowed := allowed + {ids[i]};
    }
    assert ids[..|ids|] == ids;
    distinct := true;
  }

  lemma Repeated(ids: seq<string>, i: nat)
    requires i < |ids| && ids[i] in ids[..i]
    ensures !Distinct(ids)
  {
    var j :| 0 <= j < i && ids[..i][j] == ids[i];
    assert ids[j] == ids[i];
  }

  method ValidateTournamentMetric(
    reg: Registry, contract: string, team: string, byMatch: ByMatch, ids: seq<string>, key: string, t: Aggregate)
    returns (ok: bool)
    requires forall i :: 0 <= i < |ids| ==> ids[i] in byMatch && byMatch[ids[i]].Some?
    ensures ok <==> TournamentMetricOk(reg, contract, team, byMatch, ids, key, t)
  {
    hide Registered, Reconciles, TournamentLineageOk, Pool, ChildValues, ChildRefs, TournamentId;
    if !Registered(reg, key, t.metricId, t.version) {
      return false;
    }
    var ownId := TournamentId(team, t.metricId, t.version);
    var children, values := ExpectedChildren(team, byMatch, ids, key);
    if |children| != t.eligible {
      return false;
    }
    OwnIsNoChild(team, byMatch, ids, key, t.metricId, t.version);
    var linked := ValidateTournamentLineage(t.lineage, ownId, children, contract);
    if !linked {
      return false;
    }
    var reconciled := AggregateValues(key, RuleFor(reg, key), values);
    ok := Reconciles(reconciled, t);
  }

  method ExpectedChildren(
    team: string, byMatch: ByMatch, ids: seq<string>, key: string)
    returns (children: map<string, string>, values: seq<Value>)
    requires forall i :: 0 <= i < |ids| ==> ids[i] in byMatch && byMatch[ids[i]].Some?
    ensures children == ChildRefs(team, byMatch, ids, key) && values == ChildValues(byMatch, ids, key)
  {
    children, values := map[], [];
    hide TeamMatchId;
    for i := 0 to |ids|
      invariant children == ChildRefs(team, byMatch, ids[..i], key) && values == ChildValues(byMatch, ids[..i], key)
    {
      assert ids[..i + 1][..i] == ids[..i];
      var entity := byMatch[ids[i]].value;
      if key in entity.metrics {
        var child := entity.metrics[key];
        children := children[TeamMatchId(team, ids[i], child.metricId, child.version) := ids[i]];
        values := values + [ToValue(child)];
      }
    }
    assert ids[..|ids|] == ids;
  }

  /** A tournament id is never a team-match id: they part after their common prefix. */
  lemma TournamentIsNoMatch(
    team: string, mid: string, ver: string, team': string, m: string, mid': string, ver': string)
    ensures TournamentId(team, mid, ver) != TeamMatchId(team', m, mid', ver')
  {
    var prefix := |"aggregation:team_"|;
    assert TournamentId(team, mid, ver)[prefix] == 't';
    assert TeamMatchId(team', m, mid', ver')[prefix] == 'm';
  }

  lemma {:induction false} OwnIsNoChild(
    team: string, byMatch: ByMatch, ids: seq<string>, key: string, mid: string, ver: string)
    ensures TournamentId(team, mid, ver) !in ChildRefs(team, byMatch, ids, key)
  {
    if ids != [] {
      var n := |ids| - 1;
      OwnIsNoChild(team, byMatch, ids[..n], key, mid, ver);
      if Holds(byMatch, ids[n], key) {
        TournamentIsNoMatch(
          team, mid, ver, team, ids[n], Child(byMatch, ids[n], key).metricId, Child(byMatch, ids[n], key).version);
      }
      hide TournamentId, TeamMatchId;
    }
  }

  method ValidateTournamentLineage(
    refs: seq<Ref>, ownId: string, children: map<string, string>, contract: string) returns (ok: bool)
    requires ownId !in children
    ensures ok <==> TournamentLineageOk(refs, ownId, children, contract)
  {
    var seen: set<string> := {};
    var own := 0;
    assert Counts(refs[..0], ownId, own, children, seen);
    hide Counts, CountId;
    for i := 0 to |refs|
      invariant forall j :: 0 <= j < i && IsAggregation(refs[j]) ==> TournamentRefOk(refs[j], ownId, children, contract)
      invariant Counts(refs[..i], ownId, own, children, seen)
    {
      CountsNext(refs, i, ownId, own, children, seen);
      var r := refs[i];
      if r.kind != AGGREGATION {
        continue;
      }
      if r.id == ownId {
        if !Stamped(r, "", contract) {
          return false;
        }
        own := own + 1;
        continue;
      }
      if r.id !in children || r.matchId != children[r.id] {
        return false;
      }
      if r.ruleVersion != SCORE_RULES || r.contractVersion != contract {
        return false;
      }
      if r.id in seen {
        CountGrows(refs, i + 1, r.id);
        return false;
      }
      seen := seen + {r.id};
    }
    assert refs[..|refs|] == refs;
    CountsDecide(refs, ownId, own, children, seen, contract);
    if own != 1 {
      return false;
    }
    ok := |seen| == |children|;
  }

  /** How often the own id and the children's have been met: a child once at most. */
  ghost predicate Counts(refs: seq<Ref>, ownId: string, own: int, children: map<string, string>, seen: set<string>) {
    && own == CountId(refs, ownId) && seen <= children.Keys
    && forall id :: id in children ==> CountId(refs, id) == if id in seen then 1 else 0
  }

  lemma CountsNext(
    refs: seq<Ref>, i: nat, ownId: string, own: int, children: map<string, string>, seen: set<string>)
    requires i < |refs| && ownId !in children && Counts(refs[..i], ownId, own, children, seen)
    ensures var r, more := refs[i], refs[..i + 1];
      if !IsAggregation(r) then Counts(more, ownId, own, children, seen)
      else if r.id == ownId then Counts(more, ownId, own + 1, children, seen)
      else if r.id !in children then true
      else if r.id in seen then CountId(more, r.id) == 2
      else Counts(more, ownId, own, children, seen + {r.id})
  {
    CountNext(refs, i);
    hide CountId;
  }

  lemma CountsDecide(
    refs: seq<Ref>, ownId: string, own: int, children: map<string, string>, seen: set<string>, contract: string)
    requires ownId !in children && Counts(refs, ownId, own, children, seen)
    requires forall j :: 0 <= j < |refs| && IsAggregation(refs[j]) ==>
               TournamentRefOk(refs[j], ownId, children, contract)
    ensures TournamentLineageOk(refs, ownId, children, contract) <==> own == 1 && |seen| == |children|
  {
    hide CountId, TournamentRefOk;
    SubsetSize(seen, children.Keys);
  }

  lemma {:induction false} CountGrows(refs: seq<Ref>, i: nat, id: string)
    requires i <= |refs|
    ensures CountId(refs[..i], id) <= CountId(refs, id)
    decreases |refs| - i
  {
    if i < |refs| {
      assert refs[..i + 1][..i] == refs[..i];
      CountGrows(refs, i + 1, id);
    } else {
      assert refs[..i] == refs;
    }
  }

  lemma SubsetSize(a: set<string>, b: set<string>)
    requires a <= b
    ensures |a| == |b| <==> a == b
  {
    assert b == a + (b - a) && |b| == |a| + |b - a|;
  }

  lemma CountNext(refs: seq<Ref>, i: nat)
    requires i < |refs|
    ensures forall id :: CountId(refs[..i + 1], id) ==
              CountId(refs[..i], id) + (if IsAggregation(refs[i]) && refs[i].id == id then 1 else 0)
  {
    assert refs[..i + 1][..i] == refs[..i];
  }
}
