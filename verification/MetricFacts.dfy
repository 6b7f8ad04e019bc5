/** Whole-match and per-phase accumulation: one pass over the buffered facts feeds the
    match calculator and exactly one phase calculator per accepted fact. */
module MetricFacts {
  import opened Wrappers
  import opened Phases
  import opened LifeSpans
  import opened LifePhases

  datatype Metric =
    | Kills | Assists | Deaths | Buybacks | HealCasts
    | HeroDamage | ObjectiveDamage | ExcludedDamage | Healing | Gold | Xp

  /** The decoded payload. `Ignored` stands for families the direct metrics do not read
      and for payloads that do not decode. */
  datatype Body =
    | Participant(account: string, hero: string)
    | DeathOf(account: string, hero: string, killer: string, assists: seq<string>)
    | RespawnOf(account: string, hero: string)
    | BuybackOf(account: string)
    | Damage(actor: string, target: string, objective: bool, value: Option<int>)
    | Heal(actor: string, value: Option<int>)
    | Economy(account: string, gold: Option<int>, xp: Option<int>)
    | HeroState(account: string, hero: string, alive: Option<bool>)
    | Ignored

  datatype Fact = Fact(second: real, clocked: bool, seqNo: int, body: Body)

  type Teams = map<string, string>

  type Ledger = map<(string, Metric), seq<int>>

  const HERO_PREFIX := "npc_dota_hero_"

  predicate RealHero(hero: string) {
    HERO_PREFIX <= hero
  }

  function TeamOf(teams: Teams, account: string): string {
    if account in teams then teams[account] else ""
  }

  function Count<K>(m: map<K, int>, a: K): int { if a in m then m[a] else 0 }

  function Sum(m: map<string, real>, a: string): real { if a in m then m[a] else 0.0 }

  function Refs(m: Ledger, a: string, metric: Metric): seq<int> { if (a, metric) in m then m[(a, metric)] else [] }

  function EventsIn(m: map<string, seq<LifeEvent>>, a: string): seq<LifeEvent> { if a in m then m[a] else [] }

  // ---- what one fact is worth ----

  predicate EnemyHero(teams: Teams, actor: string, target: string) {
    target != "" && target != actor && TeamOf(teams, target) != "" && TeamOf(teams, target) != TeamOf(teams, actor)
  }

  /** The damage metric a hit belongs to. */
  function DamageMetric(teams: Teams, actor: string, target: string, objective: bool): Metric {
    if EnemyHero(teams, actor, target) then HeroDamage else if objective then ObjectiveDamage else ExcludedDamage
  }

  /** How often the fact credits the account: assists count with repetition. */
  function Times(teams: Teams, f: Fact, metric: Metric, a: string): nat {
    match f.body
    case DeathOf(victim, _, killer, assists) =>
      if victim == "" then 0
      else if metric == Kills then (if killer != "" && killer == a then 1 else 0)
      else if metric == Assists then multiset(assists)[a]
      else if metric == Deaths then (if victim == a then 1 else 0)
      else 0
    case Damage(actor, target, objective, value) =>
      if value.Some? && actor != "" && actor == a &&
          metric == DamageMetric(teams, actor, target, objective) then 1 else 0
    case BuybackOf(account) => if account != "" && account == a && metric == Buybacks then 1 else 0
    case Heal(actor, value) =>
      if value.Some? && actor != "" && actor == a && (metric == Healing || metric == HealCasts) then 1 else 0
    case Economy(account, gold, xp) =>
      if account != "" && account == a && ((metric == Gold && gold.Some?) || (metric == Xp && Award(xp))) then 1 else 0
    case _ => 0
  }

  /** Awards of experience count when they are not negative. */
  predicate Award(xp: Option<int>) {
    xp.Some? && xp.value >= 0
  }

  /** What the fact adds to the account: one per credit, or the amount it carries. */
  function Amount(teams: Teams, f: Fact, metric: Metric, a: string): real {
    if Times(teams, f, metric, a) == 0 then 0.0
    else
      match f.body
      case Damage(_, _, _, value) => value.value as real
      case Heal(_, value) => if metric == Healing then value.value as real else 1.0
      case Economy(_, gold, xp) => if metric == Gold then gold.value as real else xp.value as real
      case _ => Times(teams, f, metric, a) as real
  }

  function Tally(teams: Teams, fs: seq<Fact>, metric: Metric, a: string): real {
    if fs == [] then 0.0
    else
      var f := fs[|fs| - 1];
      Tally(teams, fs[..|fs| - 1], metric, a) + Amount(teams, f, metric, a)
  }

  function Repeat(x: int, n: nat): seq<int> {
    if n == 0 then [] else Repeat(x, n - 1) + [x]
  }

  /** The fact numbers cited for the account's metric, in order. */
  function Cited(teams: Teams, fs: seq<Fact>, metric: Metric, a: string): seq<int> {
    if fs == [] then []
    else
      var f := fs[|fs| - 1];
      Cited(teams, fs[..|fs| - 1], metric, a) + Repeat(f.seqNo, CitedTimes(teams, f, metric, a))
  }

  // ---- liveness events and hero bindings ----

  function LifeEventOf(f: Fact): Option<(string, LifeEvent)> {
    match f.body
    case DeathOf(a, hero, _, _) => Some((a, LifeEvent(f.second, Death, None, hero, f.seqNo)))
    case RespawnOf(a, hero) => Some((a, LifeEvent(f.second, Respawn, None, hero, f.seqNo)))
    case HeroState(a, hero, alive) => Some((a, LifeEvent(f.second, Liveness, alive, hero, f.seqNo)))
    case _ => None
  }

  predicate Recorded(teams: Teams, a: string, hero: string) {
    a != "" && TeamOf(teams, a) != "" && RealHero(hero)
  }

  function OwnEvent(teams: Teams, f: Fact, a: string): seq<LifeEvent> {
    var e := LifeEventOf(f);
    if e.Some? && e.value.0 == a && Recorded(teams, a, e.value.1.hero) then [e.value.1] else []
  }

  function EventsOf(teams: Teams, fs: seq<Fact>, a: string): seq<LifeEvent> {
    if fs == [] then []
    else EventsOf(teams, fs[..|fs| - 1], a) + OwnEvent(teams, fs[|fs| - 1], a)
  }

  predicate Binds(f: Fact, a: string) {
    f.body.Participant? && f.body.account == a && a != "" && RealHero(f.body.hero)
  }

  function BoundHero(fs: seq<Fact>, a: string): Option<string> {
    if fs == [] then None
    else if Binds(fs[|fs| - 1], a) then Some(fs[|fs| - 1].body.hero) else BoundHero(fs[..|fs| - 1], a)
  }

  /** How often a refused fact is noted against the account. */
  function RefusedTimes(teams: Teams, f: Fact, metric: Metric, a: string): nat {
    match f.body
    case DeathOf(victim, _, killer, assists) =>
      if a == "" then 0
      else if metric == Kills then (if killer == a then 1 else 0)
      else if metric == Assists then multiset(assists)[a]
      else if metric == Deaths then (if victim == a then 1 else 0)
      else 0
    case Damage(actor, target, objective, _) =>
      if a != "" && actor == a && metric != ExcludedDamage &&
          metric == DamageMetric(teams, actor, target, objective) then 1 else 0
    case BuybackOf(account) => if a != "" && account == a && metric == Buybacks then 1 else 0
    case _ => 0
  }

  function Refused(teams: Teams, fs: seq<Fact>, metric: Metric, a: string): nat {
    if fs == [] then 0 else Refused(teams, fs[..|fs| - 1], metric, a) + RefusedTimes(teams, fs[|fs| - 1], metric, a)
  }

  // ---- the accumulators ----

  datatype Books = Books(
    kills: map<string, int>, assists: map<string, int>, deaths: map<string, int>, buybacks: map<string, int>,
        healCasts: map<string, int>,
    heroDamage: map<string, real>, objectiveDamage: map<string, real>, excludedDamage: map<string, real>,
    healing: map<string, real>, gold: map<string, real>, xp: map<string, real>,
    evidence: Ledger)

  function Held(b: Books, metric: Metric, a: string): real {
    match metric
    case Kills => Count(b.kills, a) as real
    case Assists => Count(b.assists, a) as real
    case Deaths => Count(b.deaths, a) as real
    case HeroDamage => Sum(b.heroDamage, a)
    case ObjectiveDamage => Sum(b.objectiveDamage, a)
    case ExcludedDamage => Sum(b.excludedDamage, a)
    case Buybacks => Count(b.buybacks, a) as real
    case HealCasts => Count(b.healCasts, a) as real
    case Healing => Sum(b.healing, a)
    case Gold => Sum(b.gold, a)
    case Xp => Sum(b.xp, a)
  }

  /** One account's entry under one metric: its value and the facts cited for it. */
  predicate Entry(b: Books, teams: Teams, fs: seq<Fact>, metric: Metric, a: string) {
    Held(b, metric, a) == Tally(teams, fs, metric, a) && Refs(b.evidence, a, metric) == Cited(teams, fs, metric, a)
  }

  ghost predicate Balanced(b: Books, teams: Teams, fs: seq<Fact>) {
    forall metric, a :: Entry(b, teams, fs, metric, a)
  }

  function CitedTimes(teams: Teams, f: Fact, metric: Metric, a: string): nat {
    if metric == ExcludedDamage then 0 else Times(teams, f, metric, a)
  }

  predicate EntryPosted(b: Books, b': Books, teams: Teams, f: Fact, metric: Metric, a: string) {
    && Held(b', metric, a) == Held(b, metric, a) + Amount(teams, f, metric, a)
    && Refs(b'.evidence, a, metric) == Refs(b.evidence, a, metric) + Repeat(f.seqNo, CitedTimes(teams, f, metric, a))
  }

  /** The books after posting one fact. */
  ghost predicate Posted(b: Books, b': Books, teams: Teams, f: Fact) {
    forall metric, a :: EntryPosted(b, b', teams, f, metric, a)
  }

  lemma EntryPosts(b: Books, b': Books, teams: Teams, fs: seq<Fact>, f: Fact, metric: Metric, a: string)
    requires Entry(b, teams, fs, metric, a) && EntryPosted(b, b', teams, f, metric, a)
    ensures Entry(b', teams, fs + [f], metric, a)
  {
    hide Held, Amount, CitedTimes, Repeat, Refs;
    assert (fs + [f])[..|fs|] == fs;
  }

  lemma PostingBalances(b: Books, b': Books, teams: Teams, fs: seq<Fact>, f: Fact)
    requires Balanced(b, teams, fs) && Posted(b, b', teams, f)
    ensures Balanced(b', teams, fs + [f])
  {
    hide Entry, EntryPosted;
    forall metric, a ensures Entry(b', teams, fs + [f], metric, a) {
      EntryPosts(b, b', teams, fs, f, metric, a);
    }
  }

  function Cite(evidence: Ledger, a: string, metric: Metric, seqNo: int): Ledger {
    evidence[(a, metric) := Refs(evidence, a, metric) + [seqNo]]
  }

  // ---- posting one fact ----

  function Bump<K>(m: map<K, int>, a: K): map<K, int> {
    m[a := Count(m, a) + 1]
  }

  function BumpAll(m: map<string, int>, accounts: seq<string>): map<string, int> {
    if accounts == [] then m else Bump(BumpAll(m, accounts[..|accounts| - 1]), accounts[|accounts| - 1])
  }

  function CiteAll(evidence: Ledger, accounts: seq<string>, seqNo: int): Ledger {
    if accounts == [] then evidence
    else Cite(CiteAll(evidence, accounts[..|accounts| - 1], seqNo), accounts[|accounts| - 1], Assists, seqNo)
  }

  function CreditKill(kills: map<string, int>, killer: string): map<string, int> {
    if killer == "" then kills else Bump(kills, killer)
  }

  function CiteKill(evidence: Ledger, killer: string, seqNo: int): Ledger {
    if killer == "" then evidence else Cite(evidence, killer, Kills, seqNo)
  }

  function PostDeath(b: Books, f: Fact): Books
    requires f.body.DeathOf?
  {
    b.(deaths := Bump(b.deaths, f.body.account),
       kills := CreditKill(b.kills, f.body.killer),
       assists := BumpAll(b.assists, f.body.assists),
       evidence := CiteAll(CiteKill(Cite(b.evidence, f.body.account, Deaths, f.seqNo), f.body.killer, f.seqNo),
           f.body.assists, f.seqNo))
  }

  function PostDamage(b: Books, teams: Teams, actor: string, v: real, metric: Metric, seqNo: int): Books {
    match metric
    case HeroDamage => b.(heroDamage := Add(b.heroDamage, actor, v), evidence := Cite(b.evidence, actor, metric, seqNo))
    case ObjectiveDamage => b.(objectiveDamage := Add(b.objectiveDamage, actor, v),
           evidence := Cite(b.evidence, actor, metric, seqNo))
    case ExcludedDamage => b.(excludedDamage := Add(b.excludedDamage, actor, v))
    case _ => b
  }

  function Add(m: map<string, real>, a: string, v: real): map<string, real> {
    m[a := Sum(m, a) + v]
  }

  function PostBuyback(b: Books, account: string, seqNo: int): Books {
    b.(buybacks := Bump(b.buybacks, account), evidence := Cite(b.evidence, account, Buybacks, seqNo))
  }

  function PostHeal(b: Books, actor: string, v: real, seqNo: int): Books {
    b.(healing := Add(b.healing, actor, v), healCasts := Bump(b.healCasts, actor),
       evidence := Cite(Cite(b.evidence, actor, Healing, seqNo), actor, HealCasts, seqNo))
  }

  function PostXp(b: Books, account: string, xp: Option<int>, seqNo: int): Books {
    if Award(xp) then b.(xp := Add(b.xp, account, xp.value as real),
        evidence := Cite(b.evidence, account, Xp, seqNo)) else b
  }

  function PostGold(b: Books, account: string, gold: Option<int>, seqNo: int): Books {
    if gold.Some? then b.(gold := Add(b.gold, account, gold.value as real),
        evidence := Cite(b.evidence, account, Gold, seqNo)) else b
  }

  function Post(b: Books, teams: Teams, f: Fact): Books {
    match f.body
    case DeathOf(account, _, _, _) => if account == "" then b else PostDeath(b, f)
    case Damage(actor, target, objective, value) =>
      if value.None? || actor == "" then b
      else PostDamage(b, teams, actor, value.value as real, DamageMetric(teams, actor, target, objective), f.seqNo)
    case BuybackOf(account) => if account == "" then b else PostBuyback(b, account, f.seqNo)
    case Heal(actor, value) => if value.None? || actor == "" then b
           else PostHeal(b, actor, value.value as real, f.seqNo)
    case Economy(account, gold, xp) => if account == "" then b
           else PostGold(PostXp(b, account, xp, f.seqNo), account, gold, f.seqNo)
    case _ => b
  }

  lemma {:induction false} BumpAllCounts(m: map<string, int>, accounts: seq<string>, a: string)
    ensures Count(BumpAll(m, accounts), a) == Count(m, a) + multiset(accounts)[a]
  {
    if accounts != [] {
      var n := |accounts| - 1;
      BumpAllCounts(m, accounts[..n], a);
      LastCounts(accounts, a);
    }
  }

  lemma LastCounts(accounts: seq<string>, a: string)
    requires accounts != []
    ensures multiset(accounts)[a] ==
              multiset(accounts[..|accounts| - 1])[a] + (if accounts[|accounts| - 1] == a then 1 else 0)
  {
    assert accounts == accounts[..|accounts| - 1] + [accounts[|accounts| - 1]];
  }

  lemma {:induction false} CiteAllRefs(evidence: Ledger, accounts: seq<string>, seqNo: int, a: string, metric: Metric)
    ensures Refs(CiteAll(evidence, accounts, seqNo), a, metric) ==
      Refs(evidence, a, metric) + Repeat(seqNo, if metric == Assists then multiset(accounts)[a] else 0)
  {
    if accounts != [] {
      var n := |accounts| - 1;
      CiteAllRefs(evidence, accounts[..n], seqNo, a, metric);
      CiteRefs(CiteAll(evidence, accounts[..n], seqNo), accounts[n], Assists, seqNo, a, metric);
      LastCounts(accounts, a);
      hide Cite, Refs;
    }
  }

  lemma RepeatOnce(x: int)
    ensures Repeat(x, 0) == [] && Repeat(x, 1) == [x]
  {
    assert Repeat(x, 1) == Repeat(x, 0) + [x];
  }

  lemma BumpCounts(m: map<string, int>, who: string, a: string)
    ensures Count(Bump(m, who), a) == Count(m, a) + (if who == a then 1 else 0)
  {}

  lemma CiteRefs(evidence: Ledger, who: string, what: Metric, seqNo: int, a: string, metric: Metric)
    ensures Refs(Cite(evidence, who, what, seqNo), a, metric) ==
              Refs(evidence, a, metric) + (if who == a && what == metric then [seqNo] else [])
  {}

  lemma DeathHeld(b: Books, teams: Teams, f: Fact, metric: Metric, a: string)
    requires f.body.DeathOf? && f.body.account != ""
    ensures Held(PostDeath(b, f), metric, a) == Held(b, metric, a) + Amount(teams, f, metric, a)
  {
    BumpAllCounts(b.assists, f.body.assists, a);
    BumpCounts(b.deaths, f.body.account, a);
    BumpCounts(b.kills, f.body.killer, a);
    hide BumpAll, CiteAll, Cite, CiteKill, Bump, Count, Sum;
    match metric {
      case Kills =>
      case Assists =>
      case Deaths =>
      case _ =>
    }
  }

  /** The citations a death leaves under one metric. */
  lemma DeathCited(b: Books, teams: Teams, f: Fact, metric: Metric, a: string)
    requires f.body.DeathOf? && f.body.account != ""
    ensures Refs(PostDeath(b, f).evidence, a, metric) ==
              Refs(b.evidence, a, metric) + Repeat(f.seqNo, CitedTimes(teams, f, metric, a))
  {
    var died := Cite(b.evidence, f.body.account, Deaths, f.seqNo);
    var killed := CiteKill(died, f.body.killer, f.seqNo);
    assert PostDeath(b, f).evidence == CiteAll(killed, f.body.assists, f.seqNo);
    hide PostDeath, CiteAll, Cite, CiteKill, Refs, Repeat;
    CiteRefs(b.evidence, f.body.account, Deaths, f.seqNo, a, metric);
    KillCited(died, f.body.killer, f.seqNo, a, metric);
    CiteAllRefs(killed, f.body.assists, f.seqNo, a, metric);
    RepeatOnce(f.seqNo);
  }

  lemma KillCited(evidence: Ledger, killer: string, seqNo: int, a: string, metric: Metric)
    ensures Refs(CiteKill(evidence, killer, seqNo), a, metric) ==
      Refs(evidence, a, metric) + (if killer != "" && killer == a && metric == Kills then [seqNo] else [])
  {
    CiteRefs(evidence, killer, Kills, seqNo, a, metric);
    hide Cite, Refs;
  }

  lemma DamageHeld(b: Books, teams: Teams, actor: string, v: real, what: Metric, seqNo: int, metric: Metric, a: string)
    requires what in {HeroDamage, ObjectiveDamage, ExcludedDamage}
    ensures var b' := PostDamage(b, teams, actor, v, what, seqNo);
      && Held(b', metric, a) == Held(b, metric, a) + (if actor == a && metric == what then v else 0.0)
      && Refs(b'.evidence, a, metric) ==
           Refs(b.evidence, a, metric) + (if actor == a && metric == what &&
           what != ExcludedDamage then [seqNo] else [])
  {
    CiteRefs(b.evidence, actor, what, seqNo, a, metric);
    AddSums(b.heroDamage, actor, v, a);
    AddSums(b.objectiveDamage, actor, v, a);
    AddSums(b.excludedDamage, actor, v, a);
    hide Cite, Refs, Add, Sum, Count;
  }

  lemma AddSums(m: map<string, real>, who: string, v: real, a: string)
    ensures Sum(Add(m, who, v), a) == Sum(m, a) + (if who == a then v else 0.0)
  {}

  /** A hit is worth its value, once, to its attacker under the metric it belongs to. */
  lemma HitWorth(teams: Teams, f: Fact, metric: Metric, a: string)
    requires f.body.Damage?
    ensures var what := DamageMetric(teams, f.body.actor, f.body.target, f.body.objective);
      var mine := f.body.value.Some? && f.body.actor != "" && f.body.actor == a && metric == what;
      && what in {HeroDamage, ObjectiveDamage, ExcludedDamage}
      && Amount(teams, f, metric, a) == (if mine then f.body.value.value as real else 0.0)
      && CitedTimes(teams, f, metric, a) == (if mine && what != ExcludedDamage then 1 else 0)
  {
    hide EnemyHero;
  }

  lemma DamagePosted(b: Books, teams: Teams, f: Fact, metric: Metric, a: string)
    requires f.body.Damage?
    ensures EntryPosted(b, Post(b, teams, f), teams, f, metric, a)
  {
    HitWorth(teams, f, metric, a);
    HitPosts(b, teams, f);
    RepeatOnce(f.seqNo);
    var what := DamageMetric(teams, f.body.actor, f.body.target, f.body.objective);
    hide *;
    if f.body.value.Some? && f.body.actor != "" {
      DamageHeld(b, teams, f.body.actor, f.body.value.value as real, what, f.seqNo, metric, a);
    }
    PostedWhen(b, Post(b, teams, f), teams, f, metric, a);
  }

  lemma PostedWhen(b: Books, b': Books, teams: Teams, f: Fact, metric: Metric, a: string)
    requires Held(b', metric, a) == Held(b, metric, a) + Amount(teams, f, metric, a)
    requires Refs(b'.evidence, a, metric) ==
               Refs(b.evidence, a, metric) + Repeat(f.seqNo, CitedTimes(teams, f, metric, a))
    ensures EntryPosted(b, b', teams, f, metric, a)
  {
    hide Held, Refs, Amount, CitedTimes, Repeat;
  }

  lemma HitPosts(b: Books, teams: Teams, f: Fact)
    requires f.body.Damage?
    ensures Post(b, teams, f) ==
      if f.body.value.None? || f.body.actor == "" then b
      else PostDamage(b, teams, f.body.actor, f.body.value.value as real,
                      DamageMetric(teams, f.body.actor, f.body.target, f.body.objective), f.seqNo)
  {
    hide DamageMetric, PostDamage;
  }

  lemma BuybackPosted(b: Books, teams: Teams, f: Fact, metric: Metric, a: string)
    requires f.body.BuybackOf? && f.body.account != ""
    ensures EntryPosted(b, PostBuyback(b, f.body.account, f.seqNo), teams, f, metric, a)
  {
    BumpCounts(b.buybacks, f.body.account, a);
    CiteRefs(b.evidence, f.body.account, Buybacks, f.seqNo, a, metric);
    RepeatOnce(f.seqNo);
    hide Cite, Refs, Repeat, Bump, Count, Sum;
  }

  lemma HealPosted(b: Books, teams: Teams, f: Fact, metric: Metric, a: string)
    requires f.body.Heal? && f.body.value.Some? && f.body.actor != ""
    ensures EntryPosted(b, PostHeal(b, f.body.actor, f.body.value.value as real, f.seqNo), teams, f, metric, a)
  {
    HealHeld(b, teams, f, metric, a);
    HealCited(b, teams, f, metric, a);
    var b' := PostHeal(b, f.body.actor, f.body.value.value as real, f.seqNo);
    hide *;
    PostedWhen(b, b', teams, f, metric, a);
  }

  lemma HealHeld(b: Books, teams: Teams, f: Fact, metric: Metric, a: string)
    requires f.body.Heal? && f.body.value.Some? && f.body.actor != ""
    ensures Held(PostHeal(b, f.body.actor, f.body.value.value as real, f.seqNo), metric, a) ==
              Held(b, metric, a) + Amount(teams, f, metric, a)
  {
    BumpCounts(b.healCasts, f.body.actor, a);
    AddSums(b.healing, f.body.actor, f.body.value.value as real, a);
    hide Cite, Bump, Count, Sum, Add;
  }

  lemma HealCited(b: Books, teams: Teams, f: Fact, metric: Metric, a: string)
    requires f.body.Heal? && f.body.value.Some? && f.body.actor != ""
    ensures Refs(PostHeal(b, f.body.actor, f.body.value.value as real, f.seqNo).evidence, a, metric) ==
              Refs(b.evidence, a, metric) + Repeat(f.seqNo, CitedTimes(teams, f, metric, a))
  {
    CiteRefs(b.evidence, f.body.actor, Healing, f.seqNo, a, metric);
    CiteRefs(Cite(b.evidence, f.body.actor, Healing, f.seqNo), f.body.actor, HealCasts, f.seqNo, a, metric);
    RepeatOnce(f.seqNo);
    hide Cite, Refs, Repeat;
  }

  lemma XpPosted(b: Books, account: string, xp: Option<int>, seqNo: int, metric: Metric, a: string)
    ensures var b', mine := PostXp(b, account, xp, seqNo), account == a && metric == Xp && Award(xp);
      && Held(b', metric, a) == Held(b, metric, a) + (if mine then xp.value as real else 0.0)
      && Refs(b'.evidence, a, metric) == Refs(b.evidence, a, metric) + (if mine then [seqNo] else [])
  {
    if Award(xp) {
      AddSums(b.xp, account, xp.value as real, a);
      CiteRefs(b.evidence, account, Xp, seqNo, a, metric);
      hide Cite, Refs, Count, Sum, Add;
    }
  }

  lemma GoldPosted(b: Books, account: string, gold: Option<int>, seqNo: int, metric: Metric, a: string)
    ensures var b', mine := PostGold(b, account, gold, seqNo), account == a && metric == Gold && gold.Some?;
      && Held(b', metric, a) == Held(b, metric, a) + (if mine then gold.value as real else 0.0)
      && Refs(b'.evidence, a, metric) == Refs(b.evidence, a, metric) + (if mine then [seqNo] else [])
  {
    if gold.Some? {
      AddSums(b.gold, account, gold.value as real, a);
      CiteRefs(b.evidence, account, Gold, seqNo, a, metric);
      hide Cite, Refs, Count, Sum, Add;
    }
  }

  lemma EconomyPosted(b: Books, teams: Teams, f: Fact, metric: Metric, a: string)
    requires f.body.Economy? && f.body.account != ""
    ensures EntryPosted(b, PostGold(PostXp(b, f.body.account, f.body.xp, f.seqNo), f.body.account, f.body.gold,
              f.seqNo), teams, f, metric, a)
  {
    var account := f.body.account;
    XpPosted(b, account, f.body.xp, f.seqNo, metric, a);
    GoldPosted(PostXp(b, account, f.body.xp, f.seqNo), account, f.body.gold, f.seqNo, metric, a);
    RepeatOnce(f.seqNo);
    hide PostXp, PostGold, Held, Refs, Repeat;
  }

  /** Posting a fact adds to every account exactly what the fact is worth to it, and cites
      the fact once per credit. */
  lemma PostAddsItsWorth(b: Books, teams: Teams, f: Fact)
    ensures Posted(b, Post(b, teams, f), teams, f)
  {
    forall metric, a ensures EntryPosted(b, Post(b, teams, f), teams, f, metric, a) {
      match f.body {
        case Damage(_, _, _, _) =>
          DamagePosted(b, teams, f, metric, a);
          hide EntryPosted, Post;
        case DeathOf(account, _, _, _) =>
          if account != "" {
            DeathHeld(b, teams, f, metric, a);
            DeathCited(b, teams, f, metric, a);
            hide PostDeath, Held, Refs, Amount, CitedTimes, Repeat;
          }
        case BuybackOf(account) =>
          if account != "" {
            BuybackPosted(b, teams, f, metric, a);
            hide EntryPosted, PostBuyback;
          }
        case Heal(actor, value) =>
          if value.Some? && actor != "" {
            HealPosted(b, teams, f, metric, a);
            hide EntryPosted, PostHeal;
          }
        case Economy(account, _, _) =>
          if account != "" {
            EconomyPosted(b, teams, f, metric, a);
            hide EntryPosted, PostGold, PostXp;
          }
        case _ =>
      }
    }
  }

  // ---- refused facts ----

  type Notes = map<(string, Metric), int>

  function Note(m: Notes, a: string, metric: Metric): Notes {
    if a == "" then m else Bump(m, (a, metric))
  }

  function NoteAll(m: Notes, accounts: seq<string>): Notes {
    if accounts == [] then m else Note(NoteAll(m, accounts[..|accounts| - 1]), accounts[|accounts| - 1], Assists)
  }

  function NoteRefused(m: Notes, teams: Teams, f: Fact): Notes {
    match f.body
    case DeathOf(account, _, killer, assists) => NoteAll(Note(Note(m, account, Deaths), killer, Kills), assists)
    case Damage(actor, target, objective, _) =>
      var metric := DamageMetric(teams, actor, target, objective);
      if actor == "" || metric == ExcludedDamage then m else Note(m, actor, metric)
    case BuybackOf(account) => Note(m, account, Buybacks)
    case _ => m
  }

  lemma NoteCounts(m: Notes, who: string, what: Metric, a: string, metric: Metric)
    ensures Count(Note(m, who, what), (a, metric)) ==
              Count(m, (a, metric)) + (if who != "" && who == a && what == metric then 1 else 0)
  {}

  lemma {:induction false} NoteAllCounts(m: Notes, accounts: seq<string>, a: string, metric: Metric)
    ensures Count(NoteAll(m, accounts), (a, metric)) ==
              Count(m, (a, metric)) + (if metric == Assists && a != "" then multiset(accounts)[a] else 0)
  {
    if accounts != [] {
      var n := |accounts| - 1;
      NoteAllCounts(m, accounts[..n], a, metric);
      NoteCounts(NoteAll(m, accounts[..n]), accounts[n], Assists, a, metric);
      LastCounts(accounts, a);
      hide Note, Count;
    }
  }

  lemma RefusedNoted(m: Notes, teams: Teams, f: Fact, metric: Metric, a: string)
    ensures Count(NoteRefused(m, teams, f), (a, metric)) == Count(m, (a, metric)) + RefusedTimes(teams, f, metric, a)
  {
    hide Note, NoteAll, Count, EnemyHero;
    match f.body {
      case DeathOf(account, _, killer, assists) =>
        NoteCounts(m, account, Deaths, a, metric);
        NoteCounts(Note(m, account, Deaths), killer, Kills, a, metric);
        NoteAllCounts(Note(Note(m, account, Deaths), killer, Kills), assists, a, metric);
      case Damage(actor, target, objective, _) =>
        NoteCounts(m, actor, DamageMetric(teams, actor, target, objective), a, metric);
      case BuybackOf(account) =>
        NoteCounts(m, account, Buybacks, a, metric);
      case _ =>
    }
  }

  // ---- following lives ----

  type Traces = map<string, seq<LifeEvent>>

  function AddEvent(teams: Teams, traces: Traces, a: string, e: LifeEvent): Traces {
    if Recorded(teams, a, e.hero) then traces[a := EventsIn(traces, a) + [e]] else traces
  }

  function Trace(teams: Teams, traces: Traces, f: Fact): Traces {
    match LifeEventOf(f)
    case Some(entry) => AddEvent(teams, traces, entry.0, entry.1)
    case None => traces
  }

  function Bind(heroes: map<string, string>, f: Fact): map<string, string> {
    if f.body.Participant? && Binds(f, f.body.account) then heroes[f.body.account := f.body.hero] else heroes
  }

  function HeroOf(heroes: map<string, string>, a: string): Option<string> {
    if a in heroes then Some(heroes[a]) else None
  }

  ghost predicate Follows(traces: Traces, heroes: map<string, string>, teams: Teams, fs: seq<Fact>) {
    && (forall a :: EventsIn(traces, a) == EventsOf(teams, fs, a))
    && (forall a :: HeroOf(heroes, a) == BoundHero(fs, a))
  }

  lemma FollowsNext(traces: Traces, heroes: map<string, string>, teams: Teams, fs: seq<Fact>, f: Fact)
    requires Follows(traces, heroes, teams, fs)
    ensures Follows(Trace(teams, traces, f), Bind(heroes, f), teams, fs + [f])
  {
    hide EventsIn, EventsOf, HeroOf, BoundHero, Trace, Bind;
    forall a ensures EventsIn(Trace(teams, traces, f), a) == EventsOf(teams, fs + [f], a) {
      EventsNext(traces, teams, fs, f, a);
    }
    forall a ensures HeroOf(Bind(heroes, f), a) == BoundHero(fs + [f], a) {
      HeroNext(heroes, fs, f, a);
    }
  }

  lemma EventsNext(traces: Traces, teams: Teams, fs: seq<Fact>, f: Fact, a: string)
    requires EventsIn(traces, a) == EventsOf(teams, fs, a)
    ensures EventsIn(Trace(teams, traces, f), a) == EventsOf(teams, fs + [f], a)
  {
    assert (fs + [f])[..|fs|] == fs;
    hide Recorded;
  }

  lemma HeroNext(heroes: map<string, string>, fs: seq<Fact>, f: Fact, a: string)
    requires HeroOf(heroes, a) == BoundHero(fs, a)
    ensures HeroOf(Bind(heroes, f), a) == BoundHero(fs + [f], a)
  {
    assert (fs + [f])[..|fs|] == fs;
    hide RealHero;
  }

  lemma Reflecting(b: Books, traces: Traces, heroes: map<string, string>, teams: Teams, fs: seq<Fact>, f: Fact)
    requires Balanced(b, teams, fs) && Follows(traces, heroes, teams, fs)
    ensures Balanced(Post(b, teams, f), teams, fs + [f])
    ensures Follows(Trace(teams, traces, f), Bind(heroes, f), teams, fs + [f])
  {
    PostAddsItsWorth(b, teams, f);
    PostingBalances(b, Post(b, teams, f), teams, fs, f);
    FollowsNext(traces, heroes, teams, fs, f);
  }

  // ---- the clock and phase gate ----

  predicate Gated(f: Fact, s: Stream) {
    f.clocked && PhaseAt(s, f.second).Some?
  }

  function Accepted(fs: seq<Fact>, s: Stream): seq<Fact> {
    if fs == [] then []
    else Accepted(fs[..|fs| - 1], s) + (if Gated(fs[|fs| - 1], s) then [fs[|fs| - 1]] else [])
  }

  function AcceptedIn(fs: seq<Fact>, s: Stream, p: Phase): seq<Fact> {
    if fs == [] then []
    else
      var f := fs[|fs| - 1];
      AcceptedIn(fs[..|fs| - 1], s, p) + (if Gated(f, s) && PhaseAt(s, f.second) == Some(p) then [f] else [])
  }

  function Turned(fs: seq<Fact>, s: Stream): seq<Fact> {
    if fs == [] then []
    else Turned(fs[..|fs| - 1], s) + (if Gated(fs[|fs| - 1], s) then [] else [fs[|fs| - 1]])
  }

  lemma GateNext(fs: seq<Fact>, f: Fact, s: Stream)
    ensures Accepted(fs + [f], s) == if Gated(f, s) then Accepted(fs, s) + [f] else Accepted(fs, s)
    ensures Turned(fs + [f], s) == if Gated(f, s) then Turned(fs, s) else Turned(fs, s) + [f]
    ensures forall p :: AcceptedIn(fs + [f], s, p) ==
                        if Gated(f, s) && PhaseAt(s, f.second) == Some(p) then AcceptedIn(fs, s, p) + [f]
                            else AcceptedIn(fs, s, p)
  {
    assert (fs + [f])[..|fs|] == fs;
    hide PhaseAt;
  }

  lemma NothingYet(s: Stream)
    ensures Accepted([], s) == Turned([], s) == [] && forall p :: AcceptedIn([], s, p) == []
  {}

  lemma {:induction false} NothingPasses(fs: seq<Fact>)
    ensures Accepted(fs, []) == [] && Turned(fs, []) == fs && forall p :: AcceptedIn(fs, [], p) == []
  {
    if fs != [] {
      NothingPasses(fs[..|fs| - 1]);
    }
  }

  // ---- the calculator ----

  class Calculator {
    const teams: Teams
    var kills: map<string, int>
    var assists: map<string, int>
    var deaths: map<string, int>
    var buybacks: map<string, int>
    var healCasts: map<string, int>
    var heroDamage: map<string, real>
    var objectiveDamage: map<string, real>
    var excludedDamage: map<string, real>
    var healing: map<string, real>
    var gold: map<string, real>
    var xp: map<string, real>
    var evidence: Ledger
    var rejected: map<(string, Metric), int>
    var lifeEvents: map<string, seq<LifeEvent>>
    var heroes: map<string, string>
    var pending: seq<Fact>

    constructor (teams: Teams)
      ensures this.teams == teams && pending == [] && rejected == map[] && lifeEvents == map[] && heroes == map[]
      ensures Reflects([])
    {
      this.teams := teams;
      kills, assists, deaths, buybacks, healCasts := map[], map[], map[], map[], map[];
      heroDamage, objectiveDamage, excludedDamage := map[], map[], map[];
      healing, gold, xp := map[], map[], map[];
      evidence, rejected, lifeEvents, heroes, pending := map[], map[], map[], map[], [];
    }

    ghost function Current(): Books
      reads this`kills, this`assists, this`deaths, this`buybacks, this`healCasts, this`heroDamage, this`objectiveDamage
      reads this`excludedDamage, this`healing, this`gold, this`xp, this`evidence
    {
      Books(kills, assists, deaths, buybacks, healCasts, heroDamage, objectiveDamage, excludedDamage, healing, gold, xp,
          evidence)
    }

    /** Every accumulator holds exactly what the facts `fs` are worth; liveness events and
        hero bindings are those of `fs`. */
    ghost predicate Reflects(fs: seq<Fact>)
      reads this`kills, this`assists, this`deaths, this`buybacks, this`healCasts, this`heroDamage, this`objectiveDamage
      reads this`excludedDamage, this`healing, this`gold, this`xp, this`evidence, this`lifeEvents, this`heroes
    {
      Balanced(Current(), teams, fs) && Follows(lifeEvents, heroes, teams, fs)
    }

    ghost predicate Notes(fs: seq<Fact>)
      reads this`rejected
    {
      forall a, metric :: Count(rejected, (a, metric)) == Refused(teams, fs, metric, a)
    }

    method Feed(f: Fact)
      modifies this`pending
      ensures pending == old(pending) + [f]
    {
      pending := pending + [f];
    }

    method FeedAccepted(f: Fact)
      modifies this`kills, this`assists, this`deaths, this`buybacks, this`healCasts, this`heroDamage
      modifies this`objectiveDamage, this`excludedDamage, this`healing, this`gold, this`xp, this`evidence
      modifies this`lifeEvents, this`heroes
      ensures Current() == Post(old(Current()), teams, f)
      ensures lifeEvents == Trace(teams, old(lifeEvents), f) && heroes == Bind(old(heroes), f)
    {
      FollowFact(f);
      CountFact(f);
    }

    /** Liveness events and hero bindings. */
    method FollowFact(f: Fact)
      modifies this`lifeEvents, this`heroes
      ensures lifeEvents == Trace(teams, old(lifeEvents), f) && heroes == Bind(old(heroes), f)
    {
      assert forall e :: AddEvent(teams, lifeEvents, "", e) == lifeEvents;
      hide AddEvent, RealHero;
      match f.body {
        case Participant(account, hero) =>
          if account != "" && RealHero(hero) {
            heroes := heroes[account := hero];
          }
        case DeathOf(account, hero, _, _) =>
          if account != "" {
            AddLifeEvent(account, LifeEvent(f.second, Death, None, hero, f.seqNo));
          }
        case RespawnOf(account, hero) =>
          if account != "" {
            AddLifeEvent(account, LifeEvent(f.second, Respawn, None, hero, f.seqNo));
          }
        case HeroState(account, hero, alive) =>
          if account != "" {
            AddLifeEvent(account, LifeEvent(f.second, Liveness, alive, hero, f.seqNo));
          }
        case _ =>
      }
    }

    /** The accumulators and their evidence. */
    method CountFact(f: Fact)
      modifies this`kills, this`assists, this`deaths, this`buybacks, this`healCasts, this`heroDamage
      modifies this`objectiveDamage, this`excludedDamage, this`healing, this`gold, this`xp, this`evidence
      ensures Current() == Post(old(Current()), teams, f)
    {
      hide PostDeath, PostDamage, PostBuyback, PostHeal, PostXp, PostGold, DamageMetric;
      match f.body {
        case DeathOf(account, _, _, _) =>
          if account != "" {
            CountDeath(f);
          }
        case Damage(actor, target, objective, value) =>
          if value.Some? && actor != "" {
            CountDamage(actor, target, objective, value.value as real, f.seqNo);
          }
        case BuybackOf(account) =>
          if account != "" {
            CountBuyback(account, f.seqNo);
          }
        case Heal(actor, value) =>
          if value.Some? && actor != "" {
            CountHeal(actor, value.value as real, f.seqNo);
          }
        case Economy(account, gained, awarded) =>
          if account != "" {
            CountEconomy(account, gained, awarded, f.seqNo);
          }
        case _ =>
      }
    }

    method CountDeath(f: Fact)
      requires f.body.DeathOf?
      modifies this`kills, this`assists, this`deaths, this`evidence
      ensures Current() == PostDeath(old(Current()), f)
    {
      hide BumpAll, CiteAll, Bump, Cite;
      deaths := Bump(deaths, f.body.account);
      evidence := Cite(evidence, f.body.account, Deaths, f.seqNo);
      if f.body.killer != "" {
        kills := Bump(kills, f.body.killer);
        evidence := Cite(evidence, f.body.killer, Kills, f.seqNo);
      }
      CountAssists(f.body.assists, f.seqNo);
    }

    method CountAssists(helpers: seq<string>, seqNo: int)
      modifies this`assists, this`evidence
      ensures assists == BumpAll(old(assists), helpers) && evidence == CiteAll(old(evidence), helpers, seqNo)
    {
      hide Bump, Cite;
      for i := 0 to |helpers|
        invariant assists == BumpAll(old(assists), helpers[..i])
        invariant evidence == CiteAll(old(evidence), helpers[..i], seqNo)
      {
        assert helpers[..i + 1][..i] == helpers[..i];
        assists := Bump(assists, helpers[i]);
        evidence := Cite(evidence, helpers[i], Assists, seqNo);
      }
      assert helpers[..|helpers|] == helpers;
    }

    method CountDamage(actor: string, target: string, objective: bool, v: real, seqNo: int)
      modifies this`heroDamage, this`objectiveDamage, this`excludedDamage, this`evidence
      ensures Current() == PostDamage(old(Current()), teams, actor, v,
                DamageMetric(teams, actor, target, objective), seqNo)
    {
      if EnemyHero(teams, actor, target) {
        heroDamage := Add(heroDamage, actor, v);
        evidence := Cite(evidence, actor, HeroDamage, seqNo);
      } else if objective {
        objectiveDamage := Add(objectiveDamage, actor, v);
        evidence := Cite(evidence, actor, ObjectiveDamage, seqNo);
      } else {
        excludedDamage := Add(excludedDamage, actor, v);
      }
    }

    method CountBuyback(account: string, seqNo: int)
      modifies this`buybacks, this`evidence
      ensures Current() == PostBuyback(old(Current()), account, seqNo)
    {
      buybacks := Bump(buybacks, account);
      evidence := Cite(evidence, account, Buybacks, seqNo);
    }

    method CountHeal(actor: string, v: real, seqNo: int)
      modifies this`healing, this`healCasts, this`evidence
      ensures Current() == PostHeal(old(Current()), actor, v, seqNo)
    {
      healing := Add(healing, actor, v);
      healCasts := Bump(healCasts, actor);
      evidence := Cite(evidence, actor, Healing, seqNo);
      evidence := Cite(evidence, actor, HealCasts, seqNo);
    }

    method CountEconomy(account: string, gained: Option<int>, awarded: Option<int>, seqNo: int)
      modifies this`gold, this`xp, this`evidence
      ensures Current() == PostGold(PostXp(old(Current()), account, awarded, seqNo), account, gained, seqNo)
    {
      if awarded.Some? && awarded.value >= 0 {
        xp := Add(xp, account, awarded.value as real);
        evidence := Cite(evidence, account, Xp, seqNo);
      }
      if gained.Some? {
        gold := Add(gold, account, gained.value as real);
        evidence := Cite(evidence, account, Gold, seqNo);
      }
    }

    method AddLifeEvent(a: string, e: LifeEvent)
      modifies this`lifeEvents
      ensures lifeEvents == AddEvent(teams, old(lifeEvents), a, e)
    {
      if a == "" || TeamOf(teams, a) == "" || !RealHero(e.hero) {
        return;
      }
      lifeEvents := lifeEvents[a := EventsIn(lifeEvents, a) + [e]];
    }

    method RecordRejected(f: Fact, ghost fs: seq<Fact>)
      requires Notes(fs)
      modifies this`rejected
      ensures Notes(fs + [f])
    {
      assert (fs + [f])[..|fs|] == fs;
      forall a, metric
        ensures Count(NoteRefused(rejected, teams, f), (a, metric)) == Refused(teams, fs + [f], metric, a)
      {
        RefusedNoted(rejected, teams, f, metric, a);
        hide NoteRefused, RefusedTimes;
      }
      hide *;
      NoteFact(f);
    }

    method NoteFact(f: Fact)
      modifies this`rejected
      ensures rejected == NoteRefused(old(rejected), teams, f)
    {
      hide Note, EnemyHero;
      match f.body {
        case DeathOf(account, _, killer, helpers) =>
          rejected := Note(rejected, account, Deaths);
          rejected := Note(rejected, killer, Kills);
          ghost var noted := rejected;
          for i := 0 to |helpers|
            invariant rejected == NoteAll(noted, helpers[..i])
          {
            assert helpers[..i + 1][..i] == helpers[..i];
            rejected := Note(rejected, helpers[i], Assists);
          }
          assert helpers[..|helpers|] == helpers;
        case Damage(actor, target, objective, _) =>
          if actor == "" {
            return;
          }
          if EnemyHero(teams, actor, target) {
            rejected := Note(rejected, actor, HeroDamage);
          } else if objective {
            rejected := Note(rejected, actor, ObjectiveDamage);
          }
        case BuybackOf(account) =>
          rejected := Note(rejected, account, Buybacks);
        case _ =>
      }
    }

    method Absorb(f: Fact, ghost fs: seq<Fact>)
      requires Reflects(fs)
      modifies this`kills, this`assists, this`deaths, this`buybacks, this`healCasts, this`heroDamage
      modifies this`objectiveDamage, this`excludedDamage, this`healing, this`gold, this`xp, this`evidence
      modifies this`lifeEvents, this`heroes
      ensures Reflects(fs + [f])
    {
      Reflecting(Current(), lifeEvents, heroes, teams, fs, f);
      hide Balanced, Follows, Post, Trace, Bind;
      FeedAccepted(f);
    }

    method RejectAll()
      requires Notes([])
      modifies this`rejected
      ensures Notes(pending)
    {
      hide Refused;
      for i := 0 to |pending|
        invariant Notes(pending[..i])
      {
        assert pending[..i + 1] == pending[..i] + [pending[i]];
        RecordRejected(pending[i], pending[..i]);
      }
      assert pending[..|pending|] == pending;
    }

    ghost predicate Trio(laning: Calculator, midgame: Calculator, decisive: Calculator) {
      && this != laning && this != midgame && this != decisive
      && laning != midgame && laning != decisive && midgame != decisive
      && laning.teams == midgame.teams == decisive.teams == teams
    }

    /** The match and its phases after the facts `done`. */
    ghost predicate Partitioned(
      done: seq<Fact>, s: Stream, laning: Calculator, midgame: Calculator, decisive: Calculator)
      reads this, laning, midgame, decisive
    {
      && Reflects(Accepted(done, s)) && Notes(Turned(done, s))
      && laning.Reflects(AcceptedIn(done, s, Laning))
      && midgame.Reflects(AcceptedIn(done, s, Midgame))
      && decisive.Reflects(AcceptedIn(done, s, Decisive))
    }

    method RouteFact(
      f: Fact, s: Stream, ghost done: seq<Fact>, laning: Calculator, midgame: Calculator, decisive: Calculator)
      requires Trio(laning, midgame, decisive) && Partitioned(done, s, laning, midgame, decisive)
      modifies this, laning, midgame, decisive
      ensures pending == old(pending) && Partitioned(done + [f], s, laning, midgame, decisive)
    {
      GateNext(done, f, s);
      hide Reflects, Notes, Accepted, AcceptedIn, Turned, PhaseAt;
      var phase := OfficialPhaseAt(s, f.second);
      if !f.clocked || phase.None? {
        RecordRejected(f, Turned(done, s));
      } else {
        Absorb(f, Accepted(done, s));
        match phase.value {
          case Laning => laning.Absorb(f, AcceptedIn(done, s, Laning));
          case Midgame => midgame.Absorb(f, AcceptedIn(done, s, Midgame));
          case Decisive => decisive.Absorb(f, AcceptedIn(done, s, Decisive));
          case Other(_) =>
        }
      }
    }

    method RouteAll(s: Stream, laning: Calculator, midgame: Calculator, decisive: Calculator)
      requires Trio(laning, midgame, decisive) && Partitioned([], s, laning, midgame, decisive)
      modifies this, laning, midgame, decisive
      ensures pending == old(pending) && Partitioned(pending, s, laning, midgame, decisive)
    {
      hide Partitioned;
      for i := 0 to |pending|
        invariant pending == old(pending) && Partitioned(pending[..i], s, laning, midgame, decisive)
      {
        assert pending[..i + 1] == pending[..i] + [pending[i]];
        RouteFact(pending[i], s, pending[..i], laning, midgame, decisive);
      }
      assert pending[..|pending|] == pending;
    }

    /** The stream the gate consults: no phase is known where coverage is invalid. */
    ghost function Open(s: Stream, eligible: int): Stream {
      if eligible > 0 && Tiling(s, 0, eligible) && AllOfficial(s) then s else []
    }

    method Gate(s: Stream, eligible: int, laning: Calculator, midgame: Calculator, decisive: Calculator)
      requires Trio(laning, midgame, decisive) && Notes([])
      requires Reflects([]) && laning.Reflects([]) && midgame.Reflects([]) && decisive.Reflects([])
      modifies this, laning, midgame, decisive
      ensures pending == old(pending) && Partitioned(pending, Open(s, eligible), laning, midgame, decisive)
    {
      var covered := ValidOfficialPhaseCoverage(s, eligible);
      hide Reflects, Tiling, AllOfficial, Refused, Accepted, AcceptedIn, Turned;
      if covered {
        NothingYet(s);
        RouteAll(s, laning, midgame, decisive);
      } else {
        NothingPasses(pending);
        RejectAll();
      }
    }

    /** Feeds every gated fact to this calculator and to that of its phase. The phase
        calculators then share the whole-match lives, which phases must not cut. */
    method PrepareFacts(
      s: Stream, eligible: int) returns (laning: Calculator, midgame: Calculator, decisive: Calculator)
      requires Reflects([]) && Notes([])
      modifies this
      ensures pending == old(pending)
      ensures fresh(laning) && fresh(midgame) && fresh(decisive)
      ensures laning.teams == midgame.teams == decisive.teams == teams
      ensures laning.lifeEvents == midgame.lifeEvents == decisive.lifeEvents == lifeEvents
      ensures laning.heroes == midgame.heroes == decisive.heroes == heroes
      ensures Reflects(Accepted(pending, Open(s, eligible))) && Notes(Turned(pending, Open(s, eligible)))
      ensures Balanced(laning.Current(), teams, AcceptedIn(pending, Open(s, eligible), Laning))
      ensures Balanced(midgame.Current(), teams, AcceptedIn(pending, Open(s, eligible), Midgame))
      ensures Balanced(decisive.Current(), teams, AcceptedIn(pending, Open(s, eligible), Decisive))
    {
      laning := new Calculator(teams);
      midgame := new Calculator(teams);
      decisive := new Calculator(teams);
      hide Balanced, Follows, Open, Refused, Accepted, AcceptedIn, Turned;
      Gate(s, eligible, laning, midgame, decisive);
      laning.ShareLives(this);
      midgame.ShareLives(this);
      decisive.ShareLives(this);
    }

    method ShareLives(whole: Calculator)
      modifies this`lifeEvents, this`heroes
      ensures lifeEvents == whole.lifeEvents && heroes == whole.heroes && Current() == old(Current())
    {
      lifeEvents, heroes := whole.lifeEvents, whole.heroes;
    }
  }
}
