/** Pooling player rows into team matches and team tournaments. */
module TeamGraph {
  import opened Wrappers
  import opened Aggregation

  /** Why a known metric has no value. */
  datatype Absence = Absence(metricId: string, version: string, reason: string, lineage: seq<Ref>)

  datatype PlayerRow = PlayerRow(
    matchId: string, accountId: string, teamId: string, metrics: map<string, Value>, unavailable: map<string, Absence>)

  /** A metric definition; `rule` is its aggregation text in lower case. */
  datatype Definition = Definition(version: string, rule: string)

  type Registry = map<string, Definition>

  datatype TeamMatch = TeamMatch(
    matchId: string, teamId: string, ruleVersion: string, contractVersion: string, metrics: map<string, Aggregate>,
        playerCount: nat)

  datatype TeamTournament = TeamTournament(
    teamId: string, eligible: nat, matchIds: seq<string>, metrics: map<string, Aggregate>, unavailable: map<string,
        Absence>)

  /** The matches of one team; an entry may be absent content. */
  type ByMatch = map<string, Option<TeamMatch>>

  const SCORE_RULES := "ti2026.scoring.v5"
  const AGGREGATION := "aggregation"

  function RuleFor(reg: Registry, mid: string): Rule {
    RuleOf(if mid in reg then reg[mid].rule else "")
  }

  // ---- aggregation references ----

  function TeamMatchId(team: string, matchId: string, mid: string, ver: string): string {
    "aggregation:team_match:" + team + ":" + matchId + ":" + mid + ":" + ver + ":" + SCORE_RULES
  }

  function TournamentId(team: string, mid: string, ver: string): string {
    "aggregation:team_tournament:" + team + "::" + mid + ":" + ver + ":" + SCORE_RULES
  }

  function TeamMatchRef(team: string, matchId: string, a: Aggregate, contract: string): Ref {
    Ref(matchId, AGGREGATION, TeamMatchId(team, matchId, a.metricId, a.version), SCORE_RULES, contract, 0)
  }

  function TournamentRef(team: string, a: Aggregate, contract: string): Ref {
    Ref("", AGGREGATION, TournamentId(team, a.metricId, a.version), SCORE_RULES, contract, 0)
  }

  // ---- ordering ----

  predicate Before(a: string, b: string) {
    if b == "" then false
    else if a == "" then true
    else a[0] < b[0] || (a[0] == b[0] && Before(a[1..], b[1..]))
  }

  lemma {:induction false} BeforeTotal(a: string, b: string)
    ensures a == b || Before(a, b) || Before(b, a)
  {
    if a != "" && b != "" && a[0] == b[0] {
      BeforeTotal(a[1..], b[1..]);
      if a[1..] == b[1..] {
        assert a == [a[0]] + a[1..] && b == [b[0]] + b[1..];
      }
    }
  }

  lemma {:induction false} BeforeTransitive(a: string, b: string, c: string)
    requires Before(a, b) && Before(b, c)
    ensures Before(a, c)
  {
    if a != "" && a[0] == b[0] && b[0] == c[0] {
      BeforeTransitive(a[1..], b[1..], c[1..]);
    }
  }

  ghost predicate Increasing(ids: seq<string>) {
    forall i, j :: 0 <= i < j < |ids| ==> Before(ids[i], ids[j])
  }

  lemma {:induction false} NeverBeforeItself(a: string)
    ensures !Before(a, a)
  {
    if a != "" { NeverBeforeItself(a[1..]); }
  }

  lemma IncreasingDistinct(ids: seq<string>)
    requires Increasing(ids)
    ensures forall i, j :: 0 <= i < j < |ids| ==> ids[i] != ids[j]
  {
    forall i, j | 0 <= i < j < |ids| ensures ids[i] != ids[j] {
      NeverBeforeItself(ids[i]);
    }
  }

  /** The keys in increasing order, each once. */
  method SortedKeys(keys: set<string>) returns (ids: seq<string>)
    ensures Increasing(ids)
    ensures forall k :: k in ids <==> k in keys
  {
    ids := [];
    var rest := keys;
    while rest != {}
      invariant Increasing(ids) && rest <= keys
      invariant forall k :: k in ids <==> k in keys - rest
    {
      var k :| k in rest;
      rest := rest - {k};
      ids := InsertKey(ids, k);
    }
  }

  method InsertKey(ids: seq<string>, k: string) returns (out: seq<string>)
    requires Increasing(ids) && k !in ids
    ensures Increasing(out) && forall x :: x in out <==> x in ids || x == k
  {
    var i := |ids|;
    while i > 0 && !Before(ids[i - 1], k)
      invariant 0 <= i <= |ids|
      invariant forall j :: i <= j < |ids| ==> Before(k, ids[j])
    {
      BeforeTotal(ids[i - 1], k);
      i := i - 1;
    }
    out := ids[..i] + [k] + ids[i..];
    forall j | 0 <= j < i ensures Before(ids[j], k) {
      if j < i - 1 { BeforeTransitive(ids[j], ids[i - 1], k); }
    }
    forall x ensures x in out <==> x in ids || x == k {
      assert ids == ids[..i] + ids[i..];
    }
  }

  function InsertRow(rows: seq<PlayerRow>, p: PlayerRow): seq<PlayerRow> {
    if rows == [] || !Before(p.accountId, rows[|rows| - 1].accountId) then rows + [p]
    else InsertRow(rows[..|rows| - 1], p) + [rows[|rows| - 1]]
  }

  function SortRows(rows: seq<PlayerRow>): seq<PlayerRow> {
    if rows == [] then [] else InsertRow(SortRows(rows[..|rows| - 1]), rows[|rows| - 1])
  }

  // ---- team matches ----

  predicate Plays(p: PlayerRow, team: string, matchId: string) {
    p.teamId == team && p.matchId == matchId
  }

  /** The rows of one team in one match, as given. */
  function RowsOf(players: seq<PlayerRow>, team: string, matchId: string): seq<PlayerRow> {
    if players == [] then []
    else
      var n := |players| - 1;
      RowsOf(players[..n], team, matchId) + (if Plays(players[n], team, matchId) then [players[n]] else [])
  }

  /** What the rows observed of one metric, in order. */
  function Observations(rows: seq<PlayerRow>, mid: string): seq<Value> {
    if rows == [] then []
    else
      var n := |rows| - 1;
      Observations(rows[..n], mid) + (if mid in rows[n].metrics then [rows[n].metrics[mid]] else [])
  }

  /** The published pool of one metric, if any, carrying its own reference. */
  ghost function MatchMetric(
    reg: Registry, contract: string, team: string, matchId: string, rows: seq<PlayerRow>, mid: string)
    : Option<Aggregate>
  {
    var p := Pool(mid, RuleFor(reg, mid), Observations(rows, mid));
    if p.None? then None else Some(WithRef(p.value, TeamMatchRef(team, matchId, p.value, contract)))
  }

  ghost predicate IsTeamMatch(
    tm: TeamMatch, reg: Registry, contract: string, team: string, matchId: string, rows: seq<PlayerRow>)
  {
    && tm.matchId == matchId && tm.teamId == team && tm.ruleVersion == SCORE_RULES && tm.contractVersion == contract
    && tm.playerCount == |rows|
    && forall mid :: (if mid in tm.metrics then Some(tm.metrics[mid]) else None) ==
         MatchMetric(reg, contract, team, matchId, rows, mid)
  }

  // ---- team tournaments ----

  predicate Holds(byMatch: ByMatch, matchId: string, mid: string) {
    matchId in byMatch && byMatch[matchId].Some? && mid in byMatch[matchId].value.metrics
  }

  function Child(byMatch: ByMatch, matchId: string, mid: string): Aggregate
    requires Holds(byMatch, matchId, mid)
  {
    byMatch[matchId].value.metrics[mid]
  }

  /** The pools of one metric over the matches, in the given order. */
  function ChildValues(byMatch: ByMatch, ids: seq<string>, mid: string): seq<Value> {
    if ids == [] then []
    else
      var n := |ids| - 1;
      ChildValues(byMatch, ids[..n], mid) +
          (if Holds(byMatch, ids[n], mid) then [ToValue(Child(byMatch, ids[n], mid))] else [])
  }

  ghost function TournamentMetric(
    reg: Registry, contract: string, team: string, byMatch: ByMatch, ids: seq<string>, mid: string): Option<Aggregate>
  {
    var p := Pool(mid, RuleFor(reg, mid), ChildValues(byMatch, ids, mid));
    if p.None? then None else Some(WithRef(p.value, TournamentRef(team, p.value, contract)))
  }

  ghost predicate IsTournament(tt: TeamTournament, reg: Registry, contract: string, team: string, byMatch: ByMatch) {
    && tt.teamId == team && tt.eligible == |tt.matchIds| && Increasing(tt.matchIds)
    && (forall m :: m in tt.matchIds <==> m in byMatch)
    && forall mid :: (if mid in tt.metrics then Some(tt.metrics[mid]) else None) ==
         TournamentMetric(reg, contract, team, byMatch, tt.matchIds, mid)
  }

  // ---- absent metrics ----

  function Find(absent: map<string, Absence>, mid: string): Option<Absence> {
    if mid in absent then Some(absent[mid]) else None
  }

  /** What the first row that lacks the metric says about it. */
  function FirstAbsence(rows: seq<PlayerRow>, mid: string): Option<Absence> {
    if rows == [] then None
    else
      var n := |rows| - 1;
      var earlier := FirstAbsence(rows[..n], mid);
      if earlier.Some? then earlier else Find(rows[n].unavailable, mid)
  }

  function RowsAt(rows: map<string, seq<PlayerRow>>, m: string): seq<PlayerRow> {
    if m in rows then rows[m] else []
  }

  /** All rows, by match in the given order and by account inside each. */
  function RowsInOrder(rows: map<string, seq<PlayerRow>>, ids: seq<string>): seq<PlayerRow> {
    if ids == [] then [] else RowsInOrder(rows, ids[..|ids| - 1]) + SortRows(RowsAt(rows, ids[|ids| - 1]))
  }

  function TeamInOrder(players: seq<PlayerRow>, team: string, ids: seq<string>): seq<PlayerRow> {
    if ids == [] then []
    else TeamInOrder(players, team, ids[..|ids| - 1]) + SortRows(RowsOf(players, team, ids[|ids| - 1]))
  }

  lemma {:induction false} SameRowsInOrder(
    players: seq<PlayerRow>, team: string, rows: map<string, seq<PlayerRow>>, ids: seq<string>)
    requires forall m :: m in ids ==> m in rows && rows[m] == RowsOf(players, team, m)
    ensures RowsInOrder(rows, ids) == TeamInOrder(players, team, ids)
  {
    if ids != [] {
      assert ids[|ids| - 1] in ids;
      SameRowsInOrder(players, team, rows, ids[..|ids| - 1]);
      hide SortRows, RowsOf;
    }
  }

  /** A published metric is never also absent; otherwise the first row that lacks it counts. */
  ghost predicate AbsencesAre(tt: TeamTournament, rows: seq<PlayerRow>) {
    forall mid :: Find(tt.unavailable, mid) == if mid in tt.metrics then None else FirstAbsence(rows, mid)
  }

  lemma {:induction false} AbsenceConcat(a: seq<PlayerRow>, b: seq<PlayerRow>, mid: string)
    ensures FirstAbsence(a + b, mid) == if FirstAbsence(a, mid).Some? then FirstAbsence(a, mid)
              else FirstAbsence(b, mid)
  {
    if b == [] {
      assert a + b == a;
    } else {
      var n := |b| - 1;
      AbsenceConcat(a, b[..n], mid);
      assert (a + b)[..|a + b| - 1] == a + b[..n] && (a + b)[|a + b| - 1] == b[n];
    }
  }

  ghost predicate Lacks(rows: seq<PlayerRow>, mid: string) {
    exists i :: 0 <= i < |rows| && mid in rows[i].unavailable
  }

  lemma {:induction false} AbsenceWhen(rows: seq<PlayerRow>, mid: string)
    ensures FirstAbsence(rows, mid).Some? <==> Lacks(rows, mid)
  {
    if rows != [] {
      var n := |rows| - 1;
      AbsenceWhen(rows[..n], mid);
      assert forall i :: 0 <= i < n ==> rows[..n][i] == rows[i];
      if Lacks(rows[..n], mid) {
        var i :| 0 <= i < n && mid in rows[..n][i].unavailable;
        assert mid in rows[i].unavailable;
      }
      if mid in rows[n].unavailable { assert Lacks(rows, mid); }
    }
  }

  /** A team reports a metric as absent just when it does not publish it and some row of its
      matches lacks it. */
  lemma AbsentWhen(
    players: seq<PlayerRow>, reg: Registry, contract: string, team: string, byMatch: ByMatch, tt: TeamTournament,
    mid: string)
    requires TeamBuilt(players, reg, contract, team, byMatch, tt)
    ensures mid in tt.unavailable <==> mid !in tt.metrics && Lacks(TeamInOrder(players, team, tt.matchIds), mid)
  {
    AbsenceWhen(TeamInOrder(players, team, tt.matchIds), mid);
    hide Lacks, TeamInOrder, IsTournament, IsTeamMatch;
    assert Find(tt.unavailable, mid) ==
           if mid in tt.metrics then None else FirstAbsence(TeamInOrder(players, team, tt.matchIds), mid);
  }

  /** Adds the absences of one match behind those already known. */
  method AddAbsences(known: map<string, Absence>, rows: seq<PlayerRow>) returns (absent: map<string, Absence>)
    ensures forall mid :: Find(absent, mid) == if mid in known then Find(known, mid) else FirstAbsence(rows, mid)
  {
    absent := known;
    for i := 0 to |rows|
      invariant forall mid :: Find(absent, mid) == if mid in known then Find(known, mid)
                  else FirstAbsence(rows[..i], mid)
    {
      assert rows[..i + 1][..i] == rows[..i];
      absent := FillAbsences(absent, rows[i].unavailable);
    }
    assert rows[..|rows|] == rows;
  }

  method FillAbsences(known: map<string, Absence>, more: map<string, Absence>) returns (absent: map<string, Absence>)
    ensures forall mid :: Find(absent, mid) == if mid in known then Find(known, mid) else Find(more, mid)
  {
    absent := known;
    var rest := more.Keys;
    while rest != {}
      invariant rest <= more.Keys
      invariant forall mid :: Find(absent, mid) ==
                              if mid in known then Find(known, mid) else if mid in rest then None else Find(more, mid)
    {
      var mid :| mid in rest;
      rest := rest - {mid};
      if mid !in absent {
        absent := absent[mid := more[mid]];
      }
    }
  }

  // ---- the whole graph ----

  predicate HasTeam(players: seq<PlayerRow>, team: string) {
    team != "" && exists i :: 0 <= i < |players| && players[i].teamId == team
  }

  predicate HasMatch(players: seq<PlayerRow>, team: string, matchId: string) {
    exists i :: 0 <= i < |players| && Plays(players[i], team, matchId)
  }

  ghost predicate TeamBuilt(
    players: seq<PlayerRow>, reg: Registry, contract: string, team: string, byMatch: ByMatch, tt: TeamTournament)
  {
    && (forall m :: m in byMatch <==> HasMatch(players, team, m))
    && (forall m :: m in byMatch ==>
         byMatch[m].Some? && IsTeamMatch(byMatch[m].value, reg, contract, team, m, SortRows(RowsOf(players, team, m))))
    && IsTournament(tt, reg, contract, team, byMatch)
    && AbsencesAre(tt, TeamInOrder(players, team, tt.matchIds))
  }

  class Corpus {
    const players: seq<PlayerRow>
    const reg: Registry
    const contract: string
    var teamMatches: map<string, ByMatch>
    var teams: map<string, TeamTournament>

    constructor (players: seq<PlayerRow>, reg: Registry, contract: string)
      ensures this.players == players && this.reg == reg && this.contract == contract
      ensures teamMatches == map[] && teams == map[]
    {
      this.players, this.reg, this.contract := players, reg, contract;
      teamMatches, teams := map[], map[];
    }

    /** One entry for each named team, and in it one for each of its matches. */
    ghost predicate Built()
      reads this
    {
      && (forall t :: t in teams <==> HasTeam(players, t))
      && teamMatches.Keys == teams.Keys
      && forall t :: t in teams ==> TeamBuilt(players, reg, contract, t, teamMatches[t], teams[t])
    }

    method BuildTeams()
      requires teamMatches == map[] && teams == map[]
      modifies this
      ensures Built()
    {
      var rows := GroupRows(players);
      var ids := SortedKeys(rows.Keys);
      GroupsAreTeams(players, rows);
      hide TeamBuilt, HasTeam, Grouped, Increasing;
      assert AllBuilt(players, reg, contract, ids[..0], teamMatches, teams);
      for i := 0 to |ids|
        invariant AllBuilt(players, reg, contract, ids[..i], teamMatches, teams)
      {
        assert ids[i] in ids && ids[..i + 1] == ids[..i] + [ids[i]];
        AddTeam(ids[i], rows, ids[..i]);
      }
      assert ids[..|ids|] == ids;
    }

    method AddTeam(team: string, rows: Groups, ghost done: seq<string>)
      requires Grouped(players, rows) && team in rows && AllBuilt(players, reg, contract, done, teamMatches, teams)
      modifies this
      ensures AllBuilt(players, reg, contract, done + [team], teamMatches, teams)
    {
      var byMatch, tt := BuildTeam(team, rows[team]);
      GroupOf(players, rows, team);
      TeamFromRows(players, reg, contract, team, rows[team], byMatch, tt);
      AllBuiltNext(players, reg, contract, done, teamMatches, teams, team, byMatch, tt);
      hide TeamBuilt, TeamRowsAre, EachBuilt, IsTournament, AbsencesAre, Grouped, AllBuilt;
      teamMatches := teamMatches[team := byMatch];
      teams := teams[team := tt];
    }

    /** The team's matches built so far are exactly those of `done`. */
    ghost predicate MatchesBuilt(team: string, rows: map<string, seq<PlayerRow>>, done: seq<string>, byMatch: ByMatch) {
      && (forall m :: m in byMatch <==> m in done)
      && (forall m :: m in byMatch ==>
           m in rows && byMatch[m].Some? && IsTeamMatch(byMatch[m].value, reg, contract, team, m, SortRows(rows[m])))
    }

    ghost predicate PoolsFiled(teamAgg: map<string, seq<Value>>, byMatch: ByMatch, done: seq<string>) {
      forall mid :: Filed(teamAgg, mid) == ChildValues(byMatch, done, mid)
    }

    lemma MatchesNext(
      team: string, rows: map<string, seq<PlayerRow>>, done: seq<string>, byMatch: ByMatch, m: string, tm: TeamMatch)
      requires MatchesBuilt(team, rows, done, byMatch) && m in rows
      requires IsTeamMatch(tm, reg, contract, team, m, SortRows(rows[m]))
      ensures MatchesBuilt(team, rows, done + [m], byMatch[m := Some(tm)])
    {
      hide IsTeamMatch, SortRows;
    }

    lemma PoolsNext(
      teamAgg: map<string, seq<Value>>, filed: map<string, seq<Value>>, byMatch: ByMatch, done: seq<string>, m: string,
      tm: TeamMatch)
      requires PoolsFiled(teamAgg, byMatch, done) && m !in done
      requires FiledMore(filed, teamAgg, PoolValues(tm))
      ensures PoolsFiled(filed, byMatch[m := Some(tm)], done + [m])
    {
      ChildrenNext(byMatch, done, m, tm);
      hide Filed, ChildValues, ToValue;
    }

    method BuildTeam(team: string, rows: map<string, seq<PlayerRow>>) returns (byMatch: ByMatch, tt: TeamTournament)
      ensures EachBuilt(reg, contract, team, rows, byMatch)
      ensures IsTournament(tt, reg, contract, team, byMatch) && AbsencesAre(tt, RowsInOrder(rows, tt.matchIds))
    {
      hide IsTeamMatch, SortRows, TournamentMetric, PoolsFiled, RowsInOrder, FirstAbsence;
      var ids := SortedKeys(rows.Keys);
      IncreasingDistinct(ids);
      hide Increasing;
      var teamAgg, absent;
      byMatch, teamAgg, absent := BuildMatches(team, rows, ids);
      var metrics := PoolTournament(team, teamAgg, byMatch, ids);
      tt := TeamTournament(team, |ids|, ids, metrics, absent - metrics.Keys);
    }

    method BuildMatches(team: string, rows: map<string, seq<PlayerRow>>, ids: seq<string>)
      returns (byMatch: ByMatch, teamAgg: map<string, seq<Value>>, absent: map<string, Absence>)
      requires forall m :: m in ids ==> m in rows
      requires forall i, j :: 0 <= i < j < |ids| ==> ids[i] != ids[j]
      ensures MatchesBuilt(team, rows, ids, byMatch) && PoolsFiled(teamAgg, byMatch, ids)
      ensures forall mid :: Find(absent, mid) == FirstAbsence(RowsInOrder(rows, ids), mid)
    {
      byMatch, teamAgg, absent := map[], map[], map[];
      NothingBuilt(team, rows);
      hide *;
      for i := 0 to |ids|
        invariant MatchesBuilt(team, rows, ids[..i], byMatch) && PoolsFiled(teamAgg, byMatch, ids[..i])
        invariant forall mid :: Find(absent, mid) == FirstAbsence(RowsInOrder(rows, ids[..i]), mid)
      {
        var m := ids[i];
        assert ids[..i + 1] == ids[..i] + [m] && m !in ids[..i];
        var mine := SortRows(rows[m]);
        var tm := PoolMatch(team, m, mine);
        MatchesNext(team, rows, ids[..i], byMatch, m, tm);
        var filed := FileAll(teamAgg, PoolValues(tm));
        PoolsNext(teamAgg, filed, byMatch, ids[..i], m, tm);
        teamAgg, byMatch := filed, byMatch[m := Some(tm)];
        var more := AddAbsences(absent, mine);
        AbsencesNext(rows, ids[..i], m, absent, more);
        absent := more;
      }
      assert ids[..|ids|] == ids;
    }

    lemma AbsencesNext(
      rows: map<string, seq<PlayerRow>>, done: seq<string>, m: string, absent: map<string, Absence>, more: map<string,
      Absence>)
      requires m in rows
      requires forall mid :: Find(absent, mid) == FirstAbsence(RowsInOrder(rows, done), mid)
      requires forall mid :: Find(more, mid) == if mid in absent then Find(absent, mid)
                 else FirstAbsence(SortRows(rows[m]), mid)
      ensures forall mid :: Find(more, mid) == FirstAbsence(RowsInOrder(rows, done + [m]), mid)
    {
      assert (done + [m])[..|done|] == done;
      hide SortRows;
      forall mid ensures Find(more, mid) == FirstAbsence(RowsInOrder(rows, done + [m]), mid) {
        AbsenceConcat(RowsInOrder(rows, done), SortRows(rows[m]), mid);
        hide FirstAbsence;
      }
    }

    lemma NothingBuilt(team: string, rows: map<string, seq<PlayerRow>>)
      ensures MatchesBuilt(team, rows, [], map[]) && PoolsFiled(map[], map[], [])
      ensures forall mid :: Find(map[], mid) == FirstAbsence(RowsInOrder(rows, []), mid)
    {}

    method PoolMatch(team: string, matchId: string, rows: seq<PlayerRow>) returns (tm: TeamMatch)
      ensures IsTeamMatch(tm, reg, contract, team, matchId, rows)
    {
      var byMetric := GroupMetrics(rows);
      var metrics: map<string, Aggregate> := map[];
      var rest := byMetric.Keys;
      hide Pool;
      while rest != {}
        invariant rest <= byMetric.Keys && metrics.Keys !! rest && metrics.Keys <= byMetric.Keys
        invariant forall mid :: mid in byMetric && mid !in rest ==>
                    (if mid in metrics then Some(metrics[mid]) else None) ==
                        MatchMetric(reg, contract, team, matchId, rows, mid)
      {
        var mid :| mid in rest;
        rest := rest - {mid};
        var p := AggregateValues(mid, RuleFor(reg, mid), byMetric[mid]);
        if p.Some? {
          metrics := metrics[mid := WithRef(p.value, TeamMatchRef(team, matchId, p.value, contract))];
        }
      }
      forall mid | mid !in byMetric ensures MatchMetric(reg, contract, team, matchId, rows, mid) == None {
        NothingToPool(mid, RuleFor(reg, mid));
      }
      tm := TeamMatch(matchId, team, SCORE_RULES, contract, metrics, |rows|);
    }

    method PoolTournament(
      team: string, teamAgg: map<string, seq<Value>>, ghost byMatch: ByMatch, ids: seq<string>)
      returns (metrics: map<string, Aggregate>)
      requires PoolsFiled(teamAgg, byMatch, ids)
      ensures forall mid :: (if mid in metrics then Some(metrics[mid]) else None) ==
                TournamentMetric(reg, contract, team, byMatch, ids, mid)
    {
      metrics := map[];
      var rest := teamAgg.Keys;
      hide Pool, ChildValues;
      while rest != {}
        invariant rest <= teamAgg.Keys && metrics.Keys !! rest && metrics.Keys <= teamAgg.Keys
        invariant forall mid :: mid in teamAgg && mid !in rest ==>
                    (if mid in metrics then Some(metrics[mid]) else None) ==
                        TournamentMetric(reg, contract, team, byMatch, ids, mid)
      {
        var mid :| mid in rest;
        rest := rest - {mid};
        assert Filed(teamAgg, mid) == teamAgg[mid];
        var p := AggregateValues(mid, RuleFor(reg, mid), teamAgg[mid]);
        if p.Some? {
          metrics := metrics[mid := WithRef(p.value, TournamentRef(team, p.value, contract))];
        }
      }
      forall mid | mid !in teamAgg ensures TournamentMetric(reg, contract, team, byMatch, ids, mid) == None {
        assert Filed(teamAgg, mid) == [];
        NothingToPool(mid, RuleFor(reg, mid));
      }
    }
  }

  lemma NothingToPool(mid: string, rule: Rule)
    ensures Pool(mid, rule, []) == None
  {}

  // ---- grouping ----

  function Filed(m: map<string, seq<Value>>, k: string): seq<Value> {
    if k in m then m[k] else []
  }

  /** Each entry is appended under its key. */
  ghost predicate FiledMore(out: map<string, seq<Value>>, filed: map<string, seq<Value>>, entries: map<string, Value>) {
    forall mid :: Filed(out, mid) == Filed(filed, mid) + (if mid in entries then [entries[mid]] else [])
  }

  method FileAll(filed: map<string, seq<Value>>, entries: map<string, Value>) returns (out: map<string, seq<Value>>)
    ensures FiledMore(out, filed, entries)
  {
    out := filed;
    var rest := entries.Keys;
    while rest != {}
      invariant rest <= entries.Keys
      invariant forall mid :: Filed(out, mid) ==
                  Filed(filed, mid) + (if mid in entries && mid !in rest then [entries[mid]] else [])
    {
      var mid :| mid in rest;
      rest := rest - {mid};
      out := out[mid := Filed(out, mid) + [entries[mid]]];
    }
  }

  method GroupMetrics(rows: seq<PlayerRow>) returns (byMetric: map<string, seq<Value>>)
    ensures forall mid :: Filed(byMetric, mid) == Observations(rows, mid)
  {
    byMetric := map[];
    assert forall mid :: Filed(byMetric, mid) == [];
    hide Filed;
    for i := 0 to |rows|
      invariant forall mid :: Filed(byMetric, mid) == Observations(rows[..i], mid)
    {
      assert rows[..i + 1][..i] == rows[..i];
      byMetric := FileAll(byMetric, rows[i].metrics);
    }
    assert rows[..|rows|] == rows;
  }

  /** The pools of one match as observations. */
  function PoolValues(tm: TeamMatch): map<string, Value> {
    map mid | mid in tm.metrics :: ToValue(tm.metrics[mid])
  }

  lemma {:induction false} ChildrenElsewhere(a: ByMatch, b: ByMatch, ids: seq<string>, mid: string)
    requires forall m :: m in ids ==>
               Holds(a, m, mid) == Holds(b, m, mid) && (Holds(a, m, mid) ==> Child(a, m, mid) == Child(b, m, mid))
    ensures ChildValues(a, ids, mid) == ChildValues(b, ids, mid)
  {
    if ids != [] {
      assert ids[|ids| - 1] in ids;
      ChildrenElsewhere(a, b, ids[..|ids| - 1], mid);
    }
  }

  lemma ChildrenNext(byMatch: ByMatch, ids: seq<string>, m: string, tm: TeamMatch)
    requires m !in ids
    ensures forall mid ::
      ChildValues(byMatch[m := Some(tm)], ids + [m], mid) ==
      ChildValues(byMatch, ids, mid) + (if mid in tm.metrics then [ToValue(tm.metrics[mid])] else [])
  {
    forall mid
      ensures ChildValues(byMatch[m := Some(tm)], ids + [m], mid) ==
        ChildValues(byMatch, ids, mid) + (if mid in tm.metrics then [ToValue(tm.metrics[mid])] else [])
    {
      assert (ids + [m])[..|ids|] == ids;
      ChildrenElsewhere(byMatch, byMatch[m := Some(tm)], ids, mid);
    }
  }

  type Groups = map<string, map<string, seq<PlayerRow>>>

  /** Rows grouped by named team and by match. */
  ghost predicate Grouped(players: seq<PlayerRow>, rows: Groups) {
    && (forall t :: t in rows <==> HasTeam(players, t))
    && (forall t, m :: t in rows ==> (m in rows[t] <==> HasMatch(players, t, m)))
    && (forall t, m :: t in rows && m in rows[t] ==> rows[t][m] == RowsOf(players, t, m))
  }

  function AddRow(rows: Groups, p: PlayerRow): Groups {
    if p.teamId == "" then rows
    else
      var mine := if p.teamId in rows then rows[p.teamId] else map[];
      rows[p.teamId := mine[p.matchId := (if p.matchId in mine then mine[p.matchId] else []) + [p]]]
  }

  lemma HasNext(players: seq<PlayerRow>, p: PlayerRow)
    ensures forall t :: HasTeam(players + [p], t) <==> HasTeam(players, t) || (t != "" && p.teamId == t)
    ensures forall t, m :: HasMatch(players + [p], t, m) <==> HasMatch(players, t, m) || Plays(p, t, m)
  {
    var all := players + [p];
    assert all[|players|] == p && forall i :: 0 <= i < |players| ==> all[i] == players[i];
    forall t | HasTeam(players, t) || (t != "" && p.teamId == t) ensures HasTeam(all, t) {
      if HasTeam(players, t) {
        var i :| 0 <= i < |players| && players[i].teamId == t;
        assert all[i].teamId == t;
      } else {
        assert all[|players|].teamId == t;
      }
    }
    forall t, m | HasMatch(players, t, m) || Plays(p, t, m) ensures HasMatch(all, t, m) {
      if HasMatch(players, t, m) {
        var i :| 0 <= i < |players| && Plays(players[i], t, m);
        assert Plays(all[i], t, m);
      } else {
        assert Plays(all[|players|], t, m);
      }
    }
  }

  lemma RowsNext(players: seq<PlayerRow>, p: PlayerRow, t: string, m: string)
    ensures RowsOf(players + [p], t, m) == if Plays(p, t, m) then RowsOf(players, t, m) + [p] else RowsOf(players, t, m)
  {
    assert (players + [p])[..|players|] == players;
  }

  lemma {:induction false} NoRowsYet(players: seq<PlayerRow>, t: string, m: string)
    requires !HasMatch(players, t, m)
    ensures RowsOf(players, t, m) == []
  {
    if players != [] {
      var n := |players| - 1;
      assert players == players[..n] + [players[n]];
      HasNext(players[..n], players[n]);
      NoRowsYet(players[..n], t, m);
    }
  }

  lemma NoTeamNoMatch(players: seq<PlayerRow>, t: string, m: string)
    requires HasMatch(players, t, m) && t != ""
    ensures HasTeam(players, t)
  {
    var i :| 0 <= i < |players| && Plays(players[i], t, m);
    assert players[i].teamId == t;
  }

  lemma GroupedNext(players: seq<PlayerRow>, rows: Groups, p: PlayerRow)
    requires Grouped(players, rows)
    ensures Grouped(players + [p], AddRow(rows, p))
  {
    HasNext(players, p);
    var rows' := AddRow(rows, p);
    assert forall t :: HasTeam(players, t) ==> t != "";
    hide HasTeam, HasMatch, RowsOf;
    forall t, m | t in rows' ensures m in rows'[t] <==> HasMatch(players + [p], t, m) {
      if HasMatch(players, t, m) && t != "" { NoTeamNoMatch(players, t, m); }
    }
    forall t, m | t in rows' && m in rows'[t] ensures rows'[t][m] == RowsOf(players + [p], t, m) {
      RowsNext(players, p, t, m);
      if !HasMatch(players, t, m) { NoRowsYet(players, t, m); }
      if HasMatch(players, t, m) && t != "" { NoTeamNoMatch(players, t, m); }
    }
  }

  method GroupRows(players: seq<PlayerRow>) returns (rows: Groups)
    ensures Grouped(players, rows)
  {
    rows := map[];
    for i := 0 to |players|
      invariant Grouped(players[..i], rows)
    {
      assert players[..i + 1] == players[..i] + [players[i]];
      GroupedNext(players[..i], rows, players[i]);
      hide Grouped;
      rows := AddRow(rows, players[i]);
    }
    assert players[..|players|] == players;
  }

  lemma GroupOf(players: seq<PlayerRow>, rows: Groups, t: string)
    requires Grouped(players, rows) && t in rows
    ensures TeamRowsAre(players, t, rows[t])
  {}

  lemma GroupsAreTeams(players: seq<PlayerRow>, rows: Groups)
    requires Grouped(players, rows)
    ensures forall t :: t in rows <==> HasTeam(players, t)
  {}

  /** The rows are those of the team, by match. */
  ghost predicate TeamRowsAre(players: seq<PlayerRow>, t: string, rows: map<string, seq<PlayerRow>>) {
    && (forall m :: m in rows <==> HasMatch(players, t, m))
    && (forall m :: m in rows ==> rows[m] == RowsOf(players, t, m))
  }

  ghost predicate EachBuilt(
    reg: Registry, contract: string, t: string, rows: map<string, seq<PlayerRow>>, byMatch: ByMatch)
  {
    && byMatch.Keys == rows.Keys
    && forall m :: m in byMatch ==>
         byMatch[m].Some? && IsTeamMatch(byMatch[m].value, reg, contract, t, m, SortRows(RowsAt(rows, m)))
  }

  lemma TeamFromRows(
    players: seq<PlayerRow>, reg: Registry, contract: string, t: string, rows: map<string, seq<PlayerRow>>,
    byMatch: ByMatch, tt: TeamTournament)
    requires TeamRowsAre(players, t, rows) && EachBuilt(reg, contract, t, rows, byMatch)
    requires IsTournament(tt, reg, contract, t, byMatch) && AbsencesAre(tt, RowsInOrder(rows, tt.matchIds))
    ensures TeamBuilt(players, reg, contract, t, byMatch, tt)
  {
    hide *;
    ListedRows(players, reg, contract, t, rows, byMatch, tt);
    SameRowsInOrder(players, t, rows, tt.matchIds);
    EachBuiltFrom(players, reg, contract, t, rows, byMatch);
    TeamBuiltFrom(players, reg, contract, t, byMatch, tt);
  }

  lemma ListedRows(
    players: seq<PlayerRow>, reg: Registry, contract: string, t: string, rows: map<string, seq<PlayerRow>>,
    byMatch: ByMatch, tt: TeamTournament)
    requires TeamRowsAre(players, t, rows) && EachBuilt(reg, contract, t, rows, byMatch)
    requires IsTournament(tt, reg, contract, t, byMatch)
    ensures forall m :: m in tt.matchIds ==> m in rows && rows[m] == RowsOf(players, t, m)
  {
    hide IsTeamMatch, RowsOf, HasMatch, Increasing, TournamentMetric;
  }

  lemma EachBuiltFrom(
    players: seq<PlayerRow>, reg: Registry, contract: string, t: string, rows: map<string, seq<PlayerRow>>,
    byMatch: ByMatch)
    requires TeamRowsAre(players, t, rows) && EachBuilt(reg, contract, t, rows, byMatch)
    ensures forall m :: m in byMatch <==> HasMatch(players, t, m)
    ensures forall m :: m in byMatch ==>
      byMatch[m].Some? && IsTeamMatch(byMatch[m].value, reg, contract, t, m, SortRows(RowsOf(players, t, m)))
  {
    hide IsTeamMatch, RowsOf, HasMatch, SortRows;
    forall m | m in byMatch
      ensures byMatch[m].Some? && IsTeamMatch(byMatch[m].value, reg, contract, t, m, SortRows(RowsOf(players, t, m)))
    {
      assert RowsAt(rows, m) == RowsOf(players, t, m);
    }
  }

  lemma TeamBuiltFrom(
    players: seq<PlayerRow>, reg: Registry, contract: string, t: string, byMatch: ByMatch, tt: TeamTournament)
    requires forall m :: m in byMatch <==> HasMatch(players, t, m)
    requires forall m :: m in byMatch ==>
      byMatch[m].Some? && IsTeamMatch(byMatch[m].value, reg, contract, t, m, SortRows(RowsOf(players, t, m)))
    requires IsTournament(tt, reg, contract, t, byMatch) && AbsencesAre(tt, TeamInOrder(players, t, tt.matchIds))
    ensures TeamBuilt(players, reg, contract, t, byMatch, tt)
  {
    hide IsTeamMatch, IsTournament, SortRows, RowsOf, HasMatch, AbsencesAre, TeamInOrder;
  }

  /** The entries are those of the teams in `done`. */
  ghost predicate AllBuilt(
    players: seq<PlayerRow>, reg: Registry, contract: string, done: seq<string>, teamMatches: map<string, ByMatch>,
        teams: map<string, TeamTournament>)
  {
    && (forall t :: t in teams <==> t in done)
    && teamMatches.Keys == teams.Keys
    && forall t :: t in teams ==> TeamBuilt(players, reg, contract, t, teamMatches[t], teams[t])
  }

  lemma AllBuiltNext(
    players: seq<PlayerRow>, reg: Registry, contract: string, done: seq<string>, teamMatches: map<string, ByMatch>,
        teams: map<string, TeamTournament>,
    team: string, byMatch: ByMatch, tt: TeamTournament)
    requires AllBuilt(players, reg, contract, done, teamMatches, teams)
    requires TeamBuilt(players, reg, contract, team, byMatch, tt)
    ensures AllBuilt(players, reg, contract, done + [team], teamMatches[team := byMatch], teams[team := tt])
  {
    hide TeamBuilt;
  }
}
