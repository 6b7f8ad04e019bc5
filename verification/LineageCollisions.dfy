/** Reference ids join their parts with colons. When those parts may hold colons too, ids
    of different metrics can meet, and the tournament check alone is deceived. */
module LineageCollisions {
  import opened Wrappers
  import opened Aggregation
  import opened TwoLevel
  import opened TeamGraph
  import opened LineageCheck
  import opened LineageSoundness

  predicate Plain(s: string) {
    ':' !in s
  }

  /** Up to its first colon a text is determined. */
  lemma FirstColon(a: string, b: string, x: string, y: string)
    requires Plain(a) && Plain(b) && a + ":" + x == b + ":" + y
    ensures a == b && x == y
  {
    var s, t := a + ":" + x, b + ":" + y;
    assert s[|a|] == ':' && forall i :: 0 <= i < |a| ==> s[i] == a[i] && a[i] in a;
    assert t[|b|] == ':' && forall i :: 0 <= i < |b| ==> t[i] == b[i] && b[i] in b;
    assert |a| == |b|;
    assert a == s[..|a|] && b == t[..|b|] && x == s[|a| + 1..] && y == t[|b| + 1..];
  }

  lemma IdParts(team: string, m: string, mid: string, ver: string)
    ensures TeamMatchId(team, m, mid, ver) ==
              ("aggregation:team_match:" + team + ":") + (m + ":" + (mid + ":" + (ver + ":" + SCORE_RULES)))
  {
    var prefix, suffix := "aggregation:team_match:" + team + ":", ver + ":" + SCORE_RULES;
    assert TeamMatchId(team, m, mid, ver) == prefix + m + ":" + mid + ":" + suffix;
    assert prefix + m + ":" + mid + ":" + suffix == prefix + (m + ":" + (mid + ":" + suffix));
  }

  lemma SamePrefix(prefix: string, a: string, b: string)
    requires prefix + a == prefix + b
    ensures a == b
  {
    assert (prefix + a)[|prefix|..] == a && (prefix + b)[|prefix|..] == b;
  }

  /** Match ids without a colon are told apart whatever the metrics and versions, and so are
      metric ids without a colon. */
  lemma PlainIdsDecide(team: string, m: string, m': string, mid: string, mid': string, ver: string, ver': string)
    requires Plain(m) && Plain(m') && TeamMatchId(team, m, mid, ver) == TeamMatchId(team, m', mid', ver')
    ensures m == m'
    ensures Plain(mid) && Plain(mid') ==> mid == mid' && ver == ver'
  {
    IdParts(team, m, mid, ver);
    IdParts(team, m', mid', ver');
    hide TeamMatchId;
    var x, y := ver + ":" + SCORE_RULES, ver' + ":" + SCORE_RULES;
    SamePrefix("aggregation:team_match:" + team + ":", m + ":" + (mid + ":" + x), m' + ":" + (mid' + ":" + y));
    FirstColon(m, m', mid + ":" + x, mid' + ":" + y);
    if Plain(mid) && Plain(mid') {
      FirstColon(mid, mid', x, y);
      assert "" + ver + (":" + SCORE_RULES) == x && "" + ver' + (":" + SCORE_RULES) == y;
      Between("", ver, ver', ":" + SCORE_RULES);
    }
  }

  /** A colon can otherwise sit on either side. */
  lemma IdsCollide(team: string, key: string, ver: string)
    ensures TeamMatchId(team, "a", "b:" + key, ver) == TeamMatchId(team, "a:b", key, ver)
  {
    var prefix, suffix := "aggregation:team_match:" + team + ":", ":" + ver + ":" + SCORE_RULES;
    assert "a" + ":" + ("b:" + key) == "a:b" + ":" + key;
    assert TeamMatchId(team, "a", "b:" + key, ver) == prefix + ("a" + ":" + ("b:" + key)) + suffix;
    assert TeamMatchId(team, "a:b", key, ver) == prefix + ("a:b" + ":" + key) + suffix;
  }

  /** So on match ids without a colon the tournament check alone is enough. */
  lemma PlainMatchesAreNamed(
    reg: Registry, contract: string, team: string, byMatch: ByMatch, c: Coverage, key: string, t: Aggregate)
    requires CoverageOk(byMatch, c) && TournamentMetricOk(reg, contract, team, byMatch, c.matchIds, key, t)
    requires forall m :: m in c.matchIds ==> Plain(m)
    ensures NamesItsMatches(reg, contract, team, byMatch, key, t, c.matchIds)
  {
    var ids := c.matchIds;
    AcceptedNamesWhen(reg, contract, team, byMatch, c, key, t);
    hide NamesItsMatches, TournamentMetricOk, CoverageOk, TeamMatchId, Plain;
    forall m, m' | m in ids && m' in ids && Holds(byMatch, m, key) && Holds(byMatch, m', key)
                   && ChildId(team, byMatch, m, key) == ChildId(team, byMatch, m', key)
      ensures m == m'
    {
      var a, b := Child(byMatch, m, key), Child(byMatch, m', key);
      PlainIdsDecide(team, m, m', a.metricId, b.metricId, a.version, b.version);
    }
  }

  // ---- graphs that deceive the checks ----

  function Zero(mid: string, ver: string, lineage: seq<Ref>): Aggregate {
    Aggregate(mid, ver, 0.0, 0.0, 0.0, 0, 1, "", true, true, lineage)
  }

  function Entity(team: string, m: string, key: string, mid: string, ver: string, contract: string): TeamMatch {
    TeamMatch(m, team, SCORE_RULES, contract, map[key := Zero(mid, ver, [
      Ref(m, AGGREGATION, TeamMatchId(team, m, mid, ver), SCORE_RULES, contract, 0)])], 5)
  }

  /** Two matches file different metrics under one key. */
  function MixedMatches(team: string, key: string, ver: string, contract: string): ByMatch {
    map["a" := Some(Entity(team, "a", key, "b:" + key, ver, contract)),
        "a:b" := Some(Entity(team, "a:b", key, key, ver, contract))]
  }

  /** The tournament counts both values, yet names a single child. */
  function MixedTournament(team: string, key: string, ver: string, contract: string): Aggregate {
    Zero(key, ver, [
      Ref("", AGGREGATION, TournamentId(team, key, ver), SCORE_RULES, contract, 0),
      Ref("a:b", AGGREGATION, TeamMatchId(team, "a:b", key, ver), SCORE_RULES, contract, 0)])
  }

  function MixedTeam(team: string, key: string, ver: string, contract: string): TeamScore {
    TeamScore(team, map[key := MixedTournament(team, key, ver, contract)], Coverage(2, ["a", "a:b"]))
  }

  function MixedScores(team: string, key: string, ver: string, contract: string): CorpusScores {
    CorpusScores({"a", "a:b"}, map[team := MixedMatches(team, key, ver, contract)],
                 [Some(MixedTeam(team, key, ver, contract))], contract)
  }

  function MixedRegistry(key: string, ver: string): Registry {
    map[key := Definition(ver, ""), "b:" + key := Definition(ver, "")]
  }

  function MixedValues(team: string, key: string, ver: string, contract: string): seq<Value> {
    var byMatch := MixedMatches(team, key, ver, contract);
    [ToValue(byMatch["a"].value.metrics[key]), ToValue(byMatch["a:b"].value.metrics[key])]
  }

  lemma MixedChildren(team: string, key: string, ver: string, contract: string)
    ensures var byMatch := MixedMatches(team, key, ver, contract);
      && ChildValues(byMatch, ["a", "a:b"], key) == MixedValues(team, key, ver, contract)
      && ChildRefs(team, byMatch, ["a", "a:b"], key) == map[TeamMatchId(team, "a:b", key, ver) := "a:b"]
  {
    IdsCollide(team, key, ver);
    hide TeamMatchId, ToValue;
    var byMatch, ids := MixedMatches(team, key, ver, contract), ["a", "a:b"];
    assert ids[..1] == ["a"] && ["a"][..0] == [];
    assert ChildValues(byMatch, ["a"], key) == [ToValue(byMatch["a"].value.metrics[key])];
    assert ChildRefs(team, byMatch, ["a"], key) == map[TeamMatchId(team, "a", "b:" + key, ver) := "a"];
  }

  lemma MixedPool(team: string, key: string, ver: string, contract: string)
    requires ver != ""
    ensures var p := Pool(key, RuleFor(MixedRegistry(key, ver), key), MixedValues(team, key, ver, contract));
      p.Some? && p.value.value == 0.0 && p.value.numerator == 0.0 && p.value.denominator == 0.0 &&
          p.value.opportunities == 0
  {
    assert RuleFor(MixedRegistry(key, ver), key) == Total;
    hide TeamMatchId;
    var vs := MixedValues(team, key, ver, contract);
    OneValue(vs[0]);
    OneValue(vs[1]);
    SumsConcat([vs[0]], [vs[1]]);
    assert [vs[0]] + [vs[1]] == vs;
    assert vs[0].numerator.Some?;
    hide MergedLineage, SumValues, SumNumerators, SumDenominators, SumOpportunities, RuleFor;
  }

  lemma MixedLineageOk(team: string, key: string, ver: string, contract: string)
    ensures TournamentLineageOk(
              MixedTournament(team, key, ver, contract).lineage, TournamentId(team, key, ver),
                  map[TeamMatchId(team, "a:b", key, ver) := "a:b"], contract)
    ensures !NamedOnce(
               MixedTournament(team, key, ver, contract).lineage, TeamMatchId(team, "a:b", key, ver), "a", contract)
  {
    TournamentIsNoMatch(team, key, ver, team, "a:b", key, ver);
    hide TournamentId, TeamMatchId;
    var refs := MixedTournament(team, key, ver, contract).lineage;
    assert refs[..1] == [refs[0]] && [refs[0]][..0] == [];
    assert CountId(refs[..1], TournamentId(team, key, ver)) == 1 &&
             CountId(refs[..1], TeamMatchId(team, "a:b", key, ver)) == 0;
  }

  lemma MixedPasses(team: string, key: string, ver: string, contract: string)
    requires ver != ""
    ensures TournamentsOk(MixedScores(team, key, ver, contract), MixedRegistry(key, ver))
  {
    MixedTeamPasses(team, key, ver, contract);
    hide TeamOk, MixedMatches, MixedTournament;
    var cs := MixedScores(team, key, ver, contract);
    assert MatchesOf(cs, team) == MixedMatches(team, key, ver, contract);
    assert Listed(cs.teams, team) by { assert cs.teams[0].Some?; }
  }

  lemma MixedTeamPasses(team: string, key: string, ver: string, contract: string)
    requires ver != ""
    ensures TeamOk(MixedRegistry(key, ver), contract, MixedMatches(team, key, ver, contract),
              MixedTeam(team, key, ver, contract))
  {
    var reg, ids := MixedRegistry(key, ver), ["a", "a:b"];
    var byMatch, t := MixedMatches(team, key, ver, contract), MixedTournament(team, key, ver, contract);
    MixedChildren(team, key, ver, contract);
    MixedPool(team, key, ver, contract);
    MixedLineageOk(team, key, ver, contract);
    hide TournamentId, TeamMatchId, Pool, ChildValues, ChildRefs, TournamentLineageOk, NamedOnce, MixedValues, RuleFor;
    assert TournamentMetricOk(reg, contract, team, byMatch, ids, key, t);
    MixedCoverageOk(team, key, ver, contract);
    hide TournamentMetricOk, CoverageOk, MixedMatches, MixedTournament, MixedRegistry;
  }

  lemma MixedCoverageOk(team: string, key: string, ver: string, contract: string)
    ensures CoverageOk(MixedMatches(team, key, ver, contract), Coverage(2, ["a", "a:b"]))
  {
    hide Entity;
  }

  lemma MixedIsUnsound(team: string, key: string, ver: string, contract: string)
    ensures !NamesItsMatches(
              MixedRegistry(key, ver), contract, team, MixedMatches(team, key, ver, contract), key,
                  MixedTournament(team, key, ver, contract), ["a", "a:b"])
  {
    MixedLineageOk(team, key, ver, contract);
    IdsCollide(team, key, ver);
    hide TournamentId, TeamMatchId, Pool, ChildValues, TournamentLineageOk, NamedOnce, RuleFor, NothingElse, Reconciles;
    var byMatch := MixedMatches(team, key, ver, contract);
    assert Holds(byMatch, "a", key) && ChildId(team, byMatch, "a", key) == TeamMatchId(team, "a:b", key, ver);
    assert !EachNamed(MixedTournament(team, key, ver, contract).lineage, contract, team, byMatch, key);
  }

  lemma EntityPasses(cs: CorpusScores, reg: Registry, team: string, m: string, key: string, mid: string, ver: string)
    requires m in cs.matches && mid in reg && reg[mid].version == ver
    ensures EntityOk(cs, reg, team, m, Some(Entity(team, m, key, mid, ver, cs.teamVersion))) <==>
              (key == "" || key == mid)
  {
    hide TeamMatchId;
    var id, a := TeamMatchId(team, m, mid, ver), Entity(team, m, key, mid, ver, cs.teamVersion).metrics[key];
    var r := Ref(m, AGGREGATION, id, SCORE_RULES, cs.teamVersion, 0);
    assert a.lineage == [r] && [r][..0] == [];
    assert CountId([r], id) == CountId([r][..0], id) + 1;
    assert EntityLineageOk([r], id, m, cs.teamVersion);
    hide EntityLineageOk;
  }

  lemma MixedEntitiesPassWhen(team: string, key: string, ver: string, contract: string)
    ensures EntitiesOk(MixedScores(team, key, ver, contract), MixedRegistry(key, ver)) <==> key == ""
  {
    var cs, reg := MixedScores(team, key, ver, contract), MixedRegistry(key, ver);
    EntityPasses(cs, reg, team, "a", key, "b:" + key, ver);
    EntityPasses(cs, reg, team, "a:b", key, key, ver);
    var byMatch := MixedMatches(team, key, ver, contract);
    assert key != "b:" + key by { assert |key| != |"b:" + key|; }
    hide EntityOk, Entity;
    assert cs.teamMatches.Keys == {team} && byMatch.Keys == {"a", "a:b"};
    assert team in cs.teamMatches && "a" in byMatch;
  }

  /** A graph in which one match is counted but never named. Run alone, the tournament check
      accepts it. The entity check refuses it under every name but the empty one. */
  lemma TournamentCheckAloneIsUnsound(team: string, key: string, ver: string, contract: string)
    requires ver != ""
    ensures var cs, reg := MixedScores(team, key, ver, contract), MixedRegistry(key, ver);
      && TournamentsOk(cs, reg)
      && !NamesItsMatches(reg, contract, team, MixedMatches(team, key, ver, contract), key,
           MixedTournament(team, key, ver, contract), ["a", "a:b"])
      && (EntitiesOk(cs, reg) <==> key == "")
  {
    hide *;
    MixedPasses(team, key, ver, contract);
    MixedIsUnsound(team, key, ver, contract);
    MixedEntitiesPassWhen(team, key, ver, contract);
  }
}
