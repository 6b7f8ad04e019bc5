/** What every accumulator holds after preparation, written out over the buffered facts. */
module MetricTotals {
  import opened Wrappers
  import opened Phases
  import opened LifeSpans
  import opened LifePhases
  import opened LifeDeaths
  import opened LifeParts
  import opened MetricFacts
  import opened MetricReconciliation

  // ---- one fact ----

  /** The account plays for a team, and the other for another. */
  predicate Opponents(teams: Teams, a: string, other: string) {
    other != a && other in teams && teams[other] != "" && (if a in teams then teams[a] else "") != teams[other]
  }

  /** How often a list holds an account. */
  ghost function Occurrences(accounts: seq<string>, a: string): set<int> {
    set k | 0 <= k < |accounts| && accounts[k] == a
  }

  /** How often the fact counts for the account. */
  ghost function Counted(teams: Teams, f: Fact, metric: Metric, a: string): nat {
    match metric
    case Kills =>
      if f.body.DeathOf? && f.body.account != "" && a != "" && f.body.killer == a then 1 else 0
    case Assists => if f.body.DeathOf? && f.body.account != "" then |Occurrences(f.body.assists, a)| else 0
    case Deaths => if f.body.DeathOf? && a != "" && f.body.account == a then 1 else 0
    case Buybacks => if f.body.BuybackOf? && a != "" && f.body.account == a then 1 else 0
    case HealCasts => if f.body.Heal? && a != "" && f.body.actor == a && f.body.value != None then 1 else 0
    case Healing => if f.body.Heal? && a != "" && f.body.actor == a && f.body.value != None then 1 else 0
    case Gold => if f.body.Economy? && a != "" && f.body.account == a && f.body.gold != None then 1 else 0
    case Xp =>
      if f.body.Economy? && a != "" && f.body.account == a && f.body.xp != None && f.body.xp.value >= 0 then 1 else 0
    case HeroDamage =>
      if Hits(f, a) && f.body.target != "" && Opponents(teams, a, f.body.target) then 1 else 0
    case ObjectiveDamage =>
      if Hits(f, a) && !(f.body.target != "" && Opponents(teams, a, f.body.target)) && f.body.objective then 1 else 0
    case ExcludedDamage =>
      if Hits(f, a) && !(f.body.target != "" && Opponents(teams, a, f.body.target)) && !f.body.objective then 1 else 0
  }

  predicate Hits(f: Fact, a: string) {
    f.body.Damage? && a != "" && f.body.actor == a && f.body.value != None
  }

  /** What it is worth: its amount, or one per count. */
  ghost function Worth(teams: Teams, f: Fact, metric: Metric, a: string): real {
    if Counted(teams, f, metric, a) == 0 then 0.0
    else
      match metric
      case HeroDamage => f.body.value.value as real
      case ObjectiveDamage => f.body.value.value as real
      case ExcludedDamage => f.body.value.value as real
      case Healing => f.body.value.value as real
      case Gold => f.body.gold.value as real
      case Xp => f.body.xp.value as real
      case _ => Counted(teams, f, metric, a) as real
  }

  lemma {:induction false} OccurrencesAre(accounts: seq<string>, a: string)
    ensures |Occurrences(accounts, a)| == multiset(accounts)[a]
  {
    if accounts != [] {
      var n := |accounts| - 1;
      OccurrencesAre(accounts[..n], a);
      assert accounts == accounts[..n] + [accounts[n]];
      assert Occurrences(accounts, a) == Occurrences(accounts[..n], a) + (if accounts[n] == a then {n} else {});
    }
  }

  lemma FactIsWorth(teams: Teams, f: Fact, metric: Metric, a: string)
    ensures Times(teams, f, metric, a) == Counted(teams, f, metric, a)
    ensures Amount(teams, f, metric, a) == Worth(teams, f, metric, a)
  {
    if f.body.DeathOf? { OccurrencesAre(f.body.assists, a); }
    hide Occurrences;
  }

  // ---- totals over the buffer ----

  /** The fact has a clock, and an official interval of the scope holds its second. */
  ghost predicate Takes(f: Fact, s: Stream, scope: Scope) {
    f.clocked && HeldAt(s, f.second, scope)
  }

  /** The worth of all facts of the scope to the account. */
  ghost function Total(teams: Teams, fs: seq<Fact>, s: Stream, scope: Scope, metric: Metric, a: string): real {
    if fs == [] then 0.0
    else
      var f := fs[|fs| - 1];
      Total(teams, fs[..|fs| - 1], s, scope, metric, a) +
      (if Takes(f, s, scope) then Worth(teams, f, metric, a) else 0.0)
  }

  /** Their numbers, once per count; damage of no published metric is not cited. */
  ghost function Sources(teams: Teams, fs: seq<Fact>, s: Stream, scope: Scope, metric: Metric, a: string): seq<int> {
    if fs == [] then []
    else
      var f := fs[|fs| - 1];
      Sources(teams, fs[..|fs| - 1], s, scope, metric, a) +
      (if Takes(f, s, scope) then OwnSources(teams, f, metric, a) else [])
  }

  ghost function OwnSources(teams: Teams, f: Fact, metric: Metric, a: string): seq<int> {
    if metric == ExcludedDamage then [] else seq(Counted(teams, f, metric, a), k => f.seqNo)
  }

  lemma {:induction false} RepeatIs(x: int, n: nat)
    ensures Repeat(x, n) == seq(n, k => x)
  {
    if n > 0 { RepeatIs(x, n - 1); }
  }

  lemma GateIs(f: Fact, s: Stream, eligible: int)
    requires Tiling(s, 0, eligible) && AllOfficial(s)
    ensures Gated(f, s) <==> Takes(f, s, WholeMatch)
    ensures forall p :: Official(p) ==>
              (Gated(f, s) && PhaseAt(s, f.second) == Some(p) <==> Takes(f, s, Within(p)))
  {
    forall p | Official(p) ensures PhaseAt(s, f.second) == Some(p) <==> HeldAt(s, f.second, Within(p)) {
      PhaseWhen(s, Within(p), eligible, f.second);
    }
    PhaseAtIsOfficial(s, f.second);
    HeldSomewhere(s, f.second);
    hide PhaseAt, HeldAt, Tiling, AllOfficial;
  }

  lemma HeldSomewhere(s: Stream, second: real)
    ensures HeldAt(s, second, WholeMatch) <==>
      HeldAt(s, second, Within(Laning)) || HeldAt(s, second, Within(Midgame)) || HeldAt(s, second, Within(Decisive))
  {
    if i :| InScopeAt(s, i, WholeMatch) && Holds(s[i], second) {
      assert InScopeAt(s, i, Within(s[i].phase));
    }
    hide Holds;
    forall i, p | InScopeAt(s, i, Within(p)) ensures InScopeAt(s, i, WholeMatch) {}
  }

  /** The facts of a scope that the gate lets through. */
  ghost function Taken(fs: seq<Fact>, s: Stream, scope: Scope): seq<Fact> {
    if scope == WholeMatch then Accepted(fs, s) else AcceptedIn(fs, s, scope.phase)
  }

  lemma TakenNext(fs: seq<Fact>, f: Fact, s: Stream, eligible: int, scope: Scope)
    requires Tiling(s, 0, eligible) && AllOfficial(s) && (scope == WholeMatch || Official(scope.phase))
    ensures Taken(fs + [f], s, scope) == if Takes(f, s, scope) then Taken(fs, s, scope) + [f] else Taken(fs, s, scope)
  {
    GateIs(f, s, eligible);
    GateNext(fs, f, s);
    hide Gated, Takes, Tiling, AllOfficial, Accepted, AcceptedIn, PhaseAt;
  }

  lemma NothingTaken(teams: Teams, s: Stream, scope: Scope, metric: Metric, a: string)
    ensures Tally(teams, Taken([], s, scope), metric, a) == Total(teams, [], s, scope, metric, a)
    ensures Cited(teams, Taken([], s, scope), metric, a) == Sources(teams, [], s, scope, metric, a)
  {
    NothingYet(s);
  }

  lemma TotalNext(teams: Teams, fs: seq<Fact>, f: Fact, s: Stream, scope: Scope, metric: Metric, a: string)
    ensures Total(teams, fs + [f], s, scope, metric, a) ==
      Total(teams, fs, s, scope, metric, a) + (if Takes(f, s, scope) then Worth(teams, f, metric, a) else 0.0)
    ensures Sources(teams, fs + [f], s, scope, metric, a) ==
      Sources(teams, fs, s, scope, metric, a) + (if Takes(f, s, scope) then OwnSources(teams, f, metric, a) else [])
  {
    assert (fs + [f])[..|fs|] == fs;
    hide Takes, Worth, Counted;
  }

  lemma {:induction false} TakenIs(
    teams: Teams, fs: seq<Fact>, s: Stream, eligible: int, scope: Scope, metric: Metric, a: string)
    requires Tiling(s, 0, eligible) && AllOfficial(s) && (scope == WholeMatch || Official(scope.phase))
    ensures Tally(teams, Taken(fs, s, scope), metric, a) == Total(teams, fs, s, scope, metric, a)
    ensures Cited(teams, Taken(fs, s, scope), metric, a) == Sources(teams, fs, s, scope, metric, a)
  {
    hide *;
    if fs == [] {
      NothingTaken(teams, s, scope, metric, a);
    } else {
      var n := |fs| - 1;
      var f := fs[n];
      TakenIs(teams, fs[..n], s, eligible, scope, metric, a);
      assert fs == fs[..n] + [f];
      TakenNext(fs[..n], f, s, eligible, scope);
      TotalNext(teams, fs[..n], f, s, scope, metric, a);
      OneMoreFact(teams, Taken(fs[..n], s, scope), f, metric, a);
    }
  }

  lemma OneMoreFact(teams: Teams, fs: seq<Fact>, f: Fact, metric: Metric, a: string)
    ensures Tally(teams, fs + [f], metric, a) == Tally(teams, fs, metric, a) + Worth(teams, f, metric, a)
    ensures Cited(teams, fs + [f], metric, a) ==
      Cited(teams, fs, metric, a) + OwnSources(teams, f, metric, a)
  {
    TallyOf(teams, fs, f, metric, a);
    FactIsWorth(teams, f, metric, a);
    RepeatIs(f.seqNo, Counted(teams, f, metric, a));
    hide Tally, Cited, Times, Counted, Worth, Amount;
    assert Repeat(f.seqNo, 0) == [];
  }

  /** An entry of the books is the total of its scope and cites its facts. */
  ghost predicate Shows(b: Books, teams: Teams, fs: seq<Fact>, s: Stream, scope: Scope) {
    forall metric, a ::
      Held(b, metric, a) == Total(teams, fs, s, scope, metric, a) &&
      Refs(b.evidence, a, metric) == Sources(teams, fs, s, scope, metric, a)
  }

  lemma BooksShow(b: Books, teams: Teams, fs: seq<Fact>, s: Stream, eligible: int, scope: Scope)
    requires Tiling(s, 0, eligible) && AllOfficial(s) && (scope == WholeMatch || Official(scope.phase))
    requires Balanced(b, teams, Taken(fs, s, scope))
    ensures Shows(b, teams, fs, s, scope)
  {
    hide Held, Refs, Tally, Cited, Total, Sources, Taken, Tiling, AllOfficial;
    forall metric, a
      ensures Held(b, metric, a) == Total(teams, fs, s, scope, metric, a)
      ensures Refs(b.evidence, a, metric) == Sources(teams, fs, s, scope, metric, a)
    {
      assert Entry(b, teams, Taken(fs, s, scope), metric, a);
      TakenIs(teams, fs, s, eligible, scope, metric, a);
    }
  }

  lemma TakenAre(fs: seq<Fact>, s: Stream)
    ensures Taken(fs, s, WholeMatch) == Accepted(fs, s)
    ensures Taken(fs, s, Within(Laning)) == AcceptedIn(fs, s, Laning)
    ensures Taken(fs, s, Within(Midgame)) == AcceptedIn(fs, s, Midgame)
    ensures Taken(fs, s, Within(Decisive)) == AcceptedIn(fs, s, Decisive)
  {
    hide Accepted, AcceptedIn;
  }

  lemma ReflectsBalance(c: Calculator, fs: seq<Fact>)
    requires c.Reflects(fs)
    ensures Balanced(c.Current(), c.teams, fs)
  {
    hide Balanced, Follows;
  }

  /** Preparing a buffer under an official stream leaves four calculators whose every
      entry is the written-out total of its scope. */
  method PrepareAndTotal(
    c: Calculator, s: Stream, eligible: int) returns (laning: Calculator, midgame: Calculator, decisive: Calculator)
    requires c.Reflects([]) && c.Notes([])
    modifies c
    ensures eligible > 0 && Tiling(s, 0, eligible) && AllOfficial(s) ==>
              && Shows(c.Current(), c.teams, c.pending, s, WholeMatch)
              && Shows(laning.Current(), c.teams, c.pending, s, Within(Laning))
              && Shows(midgame.Current(), c.teams, c.pending, s, Within(Midgame))
              && Shows(decisive.Current(), c.teams, c.pending, s, Within(Decisive))
  {
    laning, midgame, decisive := c.PrepareFacts(s, eligible);
    if eligible > 0 && Tiling(s, 0, eligible) && AllOfficial(s) {
      assert c.Open(s, eligible) == s;
      ReflectsBalance(c, Accepted(c.pending, s));
      TakenAre(c.pending, s);
      hide *;
      BooksShow(c.Current(), c.teams, c.pending, s, eligible, WholeMatch);
      BooksShow(laning.Current(), c.teams, c.pending, s, eligible, Within(Laning));
      BooksShow(midgame.Current(), c.teams, c.pending, s, eligible, Within(Midgame));
      BooksShow(decisive.Current(), c.teams, c.pending, s, eligible, Within(Decisive));
    }
  }

  // ---- refused facts, lives and heroes ----

  /** How often a refused fact leaves a note: whatever names the account, counted or not. */
  ghost function NotedTimes(teams: Teams, f: Fact, metric: Metric, a: string): nat {
    if a == "" then 0
    else
      match metric
      case Kills => if f.body.DeathOf? && f.body.killer == a then 1 else 0
      case Assists => if f.body.DeathOf? then |Occurrences(f.body.assists, a)| else 0
      case Deaths => if f.body.DeathOf? && f.body.account == a then 1 else 0
      case Buybacks => if f.body.BuybackOf? && f.body.account == a then 1 else 0
      case HeroDamage =>
        if f.body.Damage? && f.body.actor == a && f.body.target != "" && Opponents(teams, a, f.body.target) then 1
        else 0
      case ObjectiveDamage =>
        if f.body.Damage? && f.body.actor == a && !(f.body.target != "" && Opponents(teams, a, f.body.target)) &&
          f.body.objective then 1 else 0
      case _ => 0
  }

  lemma RefusedIsNoted(teams: Teams, f: Fact, metric: Metric, a: string)
    ensures RefusedTimes(teams, f, metric, a) == NotedTimes(teams, f, metric, a)
  {
    if f.body.DeathOf? { OccurrencesAre(f.body.assists, a); }
    hide Occurrences;
  }

  /** The fact tells of the account's hero, and this is what it tells. */
  predicate Tells(teams: Teams, f: Fact, a: string, e: LifeEvent) {
    && a != "" && a in teams && teams[a] != "" && "npc_dota_hero_" <= e.hero
    && e.second == f.second && e.seqNo == f.seqNo
    && match f.body
       case DeathOf(account, hero, _, _) => account == a && e.hero == hero && e.kind == Death && e.alive == None
       case RespawnOf(account, hero) => account == a && e.hero == hero && e.kind == Respawn && e.alive == None
       case HeroState(account, hero, alive) => account == a && e.hero == hero && e.kind == Liveness && e.alive == alive
       case _ => false
  }

  lemma OwnEventIs(teams: Teams, f: Fact, a: string)
    ensures |OwnEvent(teams, f, a)| <= 1
    ensures forall e :: Tells(teams, f, a, e) <==> OwnEvent(teams, f, a) == [e]
  {
    forall e ensures Tells(teams, f, a, e) <==> OwnEvent(teams, f, a) == [e] {}
  }

  /** The liveness events of an account are what its facts tell, in the order fed. */
  lemma {:induction false} EventsAreTold(teams: Teams, fs: seq<Fact>, a: string) returns (at: seq<int>)
    ensures |at| == |EventsOf(teams, fs, a)| && forall j, k :: 0 <= j < k < |at| ==> at[j] < at[k]
    ensures forall k :: 0 <= k < |at| ==> 0 <= at[k] < |fs| && Tells(teams, fs[at[k]], a, EventsOf(teams, fs, a)[k])
    ensures forall i, e :: 0 <= i < |fs| && Tells(teams, fs[i], a, e) ==> i in at
  {
    if fs == [] {
      at := [];
    } else {
      var n := |fs| - 1;
      at := EventsAreTold(teams, fs[..n], a);
      OwnEventIs(teams, fs[n], a);
      hide Tells, OwnEvent;
      at := ToldNext(teams, fs, a, EventsOf(teams, fs[..n], a), at, OwnEvent(teams, fs[n], a));
    }
  }

  lemma ToldNext(
    teams: Teams, fs: seq<Fact>, a: string, events: seq<LifeEvent>, before: seq<int>, own: seq<LifeEvent>)
    returns (at: seq<int>)
    requires fs != [] && |own| <= 1 && forall e :: Tells(teams, fs[|fs| - 1], a, e) <==> own == [e]
    requires var n := |fs| - 1;
      && |before| == |events| && (forall j, k :: 0 <= j < k < |before| ==> before[j] < before[k])
      && (forall k :: 0 <= k < |before| ==>
            0 <= before[k] < n && Tells(teams, fs[..n][before[k]], a, events[k]))
      && (forall i, e :: 0 <= i < n && Tells(teams, fs[..n][i], a, e) ==> i in before)
    ensures |at| == |events + own| && forall j, k :: 0 <= j < k < |at| ==> at[j] < at[k]
    ensures forall k :: 0 <= k < |at| ==> 0 <= at[k] < |fs| && Tells(teams, fs[at[k]], a, (events + own)[k])
    ensures forall i, e :: 0 <= i < |fs| && Tells(teams, fs[i], a, e) ==> i in at
  {
    hide Tells;
    var n := |fs| - 1;
    assert forall i :: 0 <= i < n ==> fs[..n][i] == fs[i];
    at := before;
    if own != [] {
      assert own == [own[0]] && Tells(teams, fs[n], a, own[0]);
      at := before + [n];
    }
    forall i, e | 0 <= i < |fs| && Tells(teams, fs[i], a, e) ensures i in at {
      if i < n {
        assert Tells(teams, fs[..n][i], a, e);
      } else {
        assert own == [e] && at[|before|] == n;
      }
    }
  }

  predicate Introduces(f: Fact, a: string, hero: string) {
    f.body.Participant? && a != "" && f.body.account == a && f.body.hero == hero && "npc_dota_hero_" <= hero
  }

  /** An account is bound to the hero its last participant fact introduces. */
  lemma {:induction false} HeroIsIntroduced(fs: seq<Fact>, a: string) returns (i: int)
    ensures match BoundHero(fs, a)
      case None => forall k, hero :: 0 <= k < |fs| ==> !Introduces(fs[k], a, hero)
      case Some(hero) =>
        0 <= i < |fs| && Introduces(fs[i], a, hero) && forall k, other :: i < k < |fs| ==> !Introduces(fs[k], a, other)
  {
    i := -1;
    if fs != [] {
      var n := |fs| - 1;
      i := HeroIsIntroduced(fs[..n], a);
      BindsIs(fs[n], a);
      hide Introduces, Binds;
      assert forall k :: 0 <= k < n ==> fs[..n][k] == fs[k];
      if Binds(fs[n], a) { i := n; }
    }
  }

  lemma BindsIs(f: Fact, a: string)
    ensures Binds(f, a) ==> f.body.Participant? && Introduces(f, a, f.body.hero)
    ensures !Binds(f, a) ==> forall hero :: !Introduces(f, a, hero)
  {}
}
