/** What the accumulators add up to: whole match against phases, accepted against
    refused, values against their citations. */
module MetricReconciliation {
  import opened Wrappers
  import opened Phases
  import opened LifeSpans
  import opened LifePhases
  import opened LifeDeaths
  import opened MetricFacts

  // ---- whole match and phases ----

  lemma TallyOf(teams: Teams, fs: seq<Fact>, f: Fact, metric: Metric, a: string)
    ensures Tally(teams, fs + [f], metric, a) == Tally(teams, fs, metric, a) + Amount(teams, f, metric, a)
    ensures Cited(teams, fs + [f], metric, a) ==
              Cited(teams, fs, metric, a) + Repeat(f.seqNo, CitedTimes(teams, f, metric, a))
  {
    assert (fs + [f])[..|fs|] == fs;
  }

  function PhaseSum(teams: Teams, fs: seq<Fact>, s: Stream, metric: Metric, a: string): real {
    Tally(teams, AcceptedIn(fs, s, Laning), metric, a) + Tally(teams, AcceptedIn(fs, s, Midgame), metric, a) +
        Tally(teams, AcceptedIn(fs, s, Decisive), metric, a)
  }

  /** How often fact number `n` is cited. */
  function Citations(teams: Teams, fs: seq<Fact>, metric: Metric, a: string, n: int): nat {
    multiset(Cited(teams, fs, metric, a))[n]
  }

  function PhaseCitations(teams: Teams, fs: seq<Fact>, s: Stream, metric: Metric, a: string, n: int): nat {
    Citations(teams, AcceptedIn(fs, s, Laning), metric, a, n) +
    Citations(teams, AcceptedIn(fs, s, Midgame), metric, a, n) +
    Citations(teams, AcceptedIn(fs, s, Decisive), metric, a, n)
  }

  /** For every fact list, metric and account, the phases add up to the whole match, and
      every citation of the whole match is one of exactly one phase. */
  lemma {:induction false} PhasesReconcile(teams: Teams, fs: seq<Fact>, s: Stream, metric: Metric, a: string, n: int)
    ensures Tally(teams, Accepted(fs, s), metric, a) == PhaseSum(teams, fs, s, metric, a)
    ensures Citations(teams, Accepted(fs, s), metric, a, n) == PhaseCitations(teams, fs, s, metric, a, n)
  {
    hide *;
    if fs != [] {
      var k := |fs| - 1;
      PhasesReconcile(teams, fs[..k], s, metric, a, n);
      ReconcileNext(teams, fs[..k], fs[k], s, metric, a, n);
      assert fs == fs[..k] + [fs[k]];
    } else {
      NoFactsReconcile(teams, s, metric, a, n);
    }
  }

  lemma NoFactsReconcile(teams: Teams, s: Stream, metric: Metric, a: string, n: int)
    ensures Tally(teams, Accepted([], s), metric, a) == PhaseSum(teams, [], s, metric, a)
    ensures Citations(teams, Accepted([], s), metric, a, n) == PhaseCitations(teams, [], s, metric, a, n)
  {
    NothingYet(s);
  }

  lemma ReconcileNext(teams: Teams, fs: seq<Fact>, f: Fact, s: Stream, metric: Metric, a: string, n: int)
    requires Tally(teams, Accepted(fs, s), metric, a) == PhaseSum(teams, fs, s, metric, a)
    requires Citations(teams, Accepted(fs, s), metric, a, n) == PhaseCitations(teams, fs, s, metric, a, n)
    ensures Tally(teams, Accepted(fs + [f], s), metric, a) == PhaseSum(teams, fs + [f], s, metric, a)
    ensures Citations(teams, Accepted(fs + [f], s), metric, a, n) == PhaseCitations(teams, fs + [f], s, metric, a, n)
  {
    hide *;
    GateNext(fs, f, s);
    if Gated(f, s) {
      OneMore(teams, Accepted(fs, s), f, metric, a, n);
      PhasesGrow(teams, fs, f, s, metric, a, n);
    } else {
      PhasesStay(teams, fs, f, s, metric, a, n);
    }
  }

  lemma PhasesStay(teams: Teams, fs: seq<Fact>, f: Fact, s: Stream, metric: Metric, a: string, n: int)
    requires !Gated(f, s)
    ensures PhaseSum(teams, fs + [f], s, metric, a) == PhaseSum(teams, fs, s, metric, a)
    ensures PhaseCitations(teams, fs + [f], s, metric, a, n) == PhaseCitations(teams, fs, s, metric, a, n)
  {
    GateNext(fs, f, s);
    hide Tally, Citations, Accepted, AcceptedIn;
  }

  function OwnCitations(teams: Teams, f: Fact, metric: Metric, a: string, n: int): nat {
    multiset(Repeat(f.seqNo, CitedTimes(teams, f, metric, a)))[n]
  }

  lemma PhasesGrow(teams: Teams, fs: seq<Fact>, f: Fact, s: Stream, metric: Metric, a: string, n: int)
    requires Gated(f, s)
    ensures PhaseSum(teams, fs + [f], s, metric, a) == PhaseSum(teams, fs, s, metric, a) + Amount(teams, f, metric, a)
    ensures PhaseCitations(teams, fs + [f], s, metric, a, n) ==
              PhaseCitations(teams, fs, s, metric, a, n) + OwnCitations(teams, f, metric, a, n)
  {
    hide Tally, Citations, OwnCitations, Accepted, AcceptedIn, PhaseAt, Amount;
    PhaseAtIsOfficial(s, f.second);
    PhaseGrows(teams, fs, f, s, Laning, metric, a, n);
    PhaseGrows(teams, fs, f, s, Midgame, metric, a, n);
    PhaseGrows(teams, fs, f, s, Decisive, metric, a, n);
  }

  lemma PhaseGrows(teams: Teams, fs: seq<Fact>, f: Fact, s: Stream, p: Phase, metric: Metric, a: string, n: int)
    requires Gated(f, s)
    ensures var mine := PhaseAt(s, f.second) == Some(p);
      && Tally(teams, AcceptedIn(fs + [f], s, p), metric, a) ==
           Tally(teams, AcceptedIn(fs, s, p), metric, a) + (if mine then Amount(teams, f, metric, a) else 0.0)
      && Citations(teams, AcceptedIn(fs + [f], s, p), metric, a, n) ==
           Citations(teams, AcceptedIn(fs, s, p), metric, a, n) +
           (if mine then OwnCitations(teams, f, metric, a, n) else 0)
  {
    hide *;
    GateNext(fs, f, s);
    OneMore(teams, AcceptedIn(fs, s, p), f, metric, a, n);
  }

  lemma OneMore(teams: Teams, fs: seq<Fact>, f: Fact, metric: Metric, a: string, n: int)
    ensures Tally(teams, fs + [f], metric, a) == Tally(teams, fs, metric, a) + Amount(teams, f, metric, a)
    ensures Citations(teams, fs + [f], metric, a, n) ==
              Citations(teams, fs, metric, a, n) + OwnCitations(teams, f, metric, a, n)
  {
    TallyOf(teams, fs, f, metric, a);
  }

  /** What the whole-match and phase calculators report after preparation. */
  lemma ReportsReconcile(
    whole: Books, laning: Books, midgame: Books, decisive: Books, teams: Teams, fs: seq<Fact>, s: Stream)
    requires Balanced(whole, teams, Accepted(fs, s))
    requires Balanced(laning, teams, AcceptedIn(fs, s, Laning))
    requires Balanced(midgame, teams, AcceptedIn(fs, s, Midgame))
    requires Balanced(decisive, teams, AcceptedIn(fs, s, Decisive))
    ensures forall metric, a :: Held(whole, metric, a) ==
              Held(laning, metric, a) + Held(midgame, metric, a) + Held(decisive, metric, a)
  {
    hide Held, Refs;
    forall metric, a
      ensures Held(whole, metric, a) == Held(laning, metric, a) + Held(midgame, metric, a) + Held(decisive, metric, a)
    {
      PhasesReconcile(teams, fs, s, metric, a, 0);
      hide Tally, Cited, Accepted, AcceptedIn;
      assert Entry(whole, teams, Accepted(fs, s), metric, a) &&
               Entry(laning, teams, AcceptedIn(fs, s, Laning), metric, a);
      assert Entry(midgame, teams, AcceptedIn(fs, s, Midgame), metric, a) &&
               Entry(decisive, teams, AcceptedIn(fs, s, Decisive), metric, a);
    }
  }

  /** Prepares the buffered facts and reconciles the reports. */
  method PrepareAndReconcile(
    c: Calculator, s: Stream, eligible: int) returns (laning: Calculator, midgame: Calculator, decisive: Calculator)
    requires c.Reflects([]) && c.Notes([])
    modifies c
    ensures forall metric, a ::
              Held(c.Current(), metric, a) ==
              Held(laning.Current(), metric, a) + Held(midgame.Current(), metric, a) +
                  Held(decisive.Current(), metric, a)
  {
    laning, midgame, decisive := c.PrepareFacts(s, eligible);
    ReportsReconcile(
      c.Current(), laning.Current(), midgame.Current(), decisive.Current(), c.teams, c.pending, c.Open(s, eligible));
  }

  // ---- nothing is lost ----

  /** How often the facts credit the account. */
  function Credits(teams: Teams, fs: seq<Fact>, metric: Metric, a: string): nat {
    if fs == [] then 0 else Credits(teams, fs[..|fs| - 1], metric, a) + Times(teams, fs[|fs| - 1], metric, a)
  }

  /** Acceptance would drop the fact whole: the death of a creep or building, which has no
      account, or a hit without a value. */
  predicate Hollow(f: Fact) {
    (f.body.DeathOf? && f.body.account == "") || (f.body.Damage? && f.body.value.None?)
  }

  /** Refused credits to this account under this metric leave a note. */
  predicate KeepsNotes(metric: Metric, a: string) {
    a != "" && metric in {Kills, Assists, Deaths, Buybacks, HeroDamage, ObjectiveDamage}
  }

  /** Notes against the account for refused facts that acceptance would have dropped. */
  function Phantoms(teams: Teams, fs: seq<Fact>, s: Stream, metric: Metric, a: string): nat {
    if fs == [] then 0
    else
      var f := fs[|fs| - 1];
      Phantoms(teams, fs[..|fs| - 1], s, metric, a) +
      (if Hollow(f) && !Gated(f, s) then RefusedTimes(teams, f, metric, a) else 0)
  }

  /** Credits of refused facts that no note is kept for. */
  function Unnoted(teams: Teams, fs: seq<Fact>, s: Stream, metric: Metric, a: string): nat {
    if fs == [] then 0
    else
      var f := fs[|fs| - 1];
      Unnoted(teams, fs[..|fs| - 1], s, metric, a) +
      (if !KeepsNotes(metric, a) && !Gated(f, s) then Times(teams, f, metric, a) else 0)
  }

  /** Over every fact list, metric and account: each credit of the list is either given or
      noted as refused. The only further notes are those of refused facts that acceptance
      would have dropped, and only accounts and metrics without notes go without theirs. */
  lemma {:induction false} CreditedOrRefused(teams: Teams, fs: seq<Fact>, s: Stream, metric: Metric, a: string)
    ensures Credits(teams, fs, metric, a) + Phantoms(teams, fs, s, metric, a) ==
            Credits(teams, Accepted(fs, s), metric, a) + Refused(teams, Turned(fs, s), metric, a)
            + Unnoted(teams, fs, s, metric, a)
  {
    if fs != [] {
      var n := |fs| - 1;
      var f := fs[n];
      assert fs == fs[..n] + [f];
      CreditedOrRefused(teams, fs[..n], s, metric, a);
      SameWorth(teams, f, metric, a);
      GateNext(fs[..n], f, s);
      hide RefusedTimes, Gated, Accepted, Turned, Hollow, KeepsNotes, Times;
      CreditsOf(teams, fs[..n], f, metric, a);
      CreditsOf(teams, Accepted(fs[..n], s), f, metric, a);
      RefusedOf(teams, Turned(fs[..n], s), f, metric, a);
      hide Credits, Refused;
    }
  }

  /** A fact is noted as often as it would have been credited, but for those two kinds. */
  lemma SameWorth(teams: Teams, f: Fact, metric: Metric, a: string)
    ensures Times(teams, f, metric, a) + (if Hollow(f) then RefusedTimes(teams, f, metric, a) else 0) ==
            RefusedTimes(teams, f, metric, a) + (if KeepsNotes(metric, a) then 0 else Times(teams, f, metric, a))
  {
    hide EnemyHero;
  }

  lemma CreditsOf(teams: Teams, fs: seq<Fact>, f: Fact, metric: Metric, a: string)
    ensures Credits(teams, fs + [f], metric, a) == Credits(teams, fs, metric, a) + Times(teams, f, metric, a)
  {
    assert (fs + [f])[..|fs|] == fs;
  }

  lemma RefusedOf(teams: Teams, fs: seq<Fact>, f: Fact, metric: Metric, a: string)
    ensures Refused(teams, fs + [f], metric, a) == Refused(teams, fs, metric, a) + RefusedTimes(teams, f, metric, a)
  {
    assert (fs + [f])[..|fs|] == fs;
  }

  lemma {:induction false} RepeatLength(x: int, n: nat)
    ensures |Repeat(x, n)| == n && forall y :: y in Repeat(x, n) <==> n > 0 && y == x
  {
    if n > 0 { RepeatLength(x, n - 1); }
  }

  /** Every credit is cited, save for damage that belongs to no published metric. */
  lemma {:induction false} CreditsAreCited(teams: Teams, fs: seq<Fact>, metric: Metric, a: string)
    requires metric != ExcludedDamage
    ensures |Cited(teams, fs, metric, a)| == Credits(teams, fs, metric, a)
  {
    if fs != [] {
      var f := fs[|fs| - 1];
      CreditsAreCited(teams, fs[..|fs| - 1], metric, a);
      RepeatLength(f.seqNo, Times(teams, f, metric, a));
      hide Repeat, Times;
    }
  }

  /** A published count equals the number of its citations. */
  lemma {:induction false} CountsAreCited(teams: Teams, fs: seq<Fact>, metric: Metric, a: string)
    requires metric in {Kills, Assists, Deaths, Buybacks, HealCasts}
    ensures Tally(teams, fs, metric, a) == |Cited(teams, fs, metric, a)| as real
  {
    if fs != [] {
      var f := fs[|fs| - 1];
      CountsAreCited(teams, fs[..|fs| - 1], metric, a);
      RepeatLength(f.seqNo, Times(teams, f, metric, a));
      hide Repeat;
    }
  }

  /** The same balance over citations, for every published metric, and over the published
      values of the counts. */
  lemma CountedOrRefused(teams: Teams, fs: seq<Fact>, s: Stream, metric: Metric, a: string)
    requires metric != ExcludedDamage
    ensures |Cited(teams, fs, metric, a)| + Phantoms(teams, fs, s, metric, a) ==
            |Cited(teams, Accepted(fs, s), metric, a)| + Refused(teams, Turned(fs, s), metric, a)
            + Unnoted(teams, fs, s, metric, a)
    ensures metric in {Kills, Assists, Deaths, Buybacks, HealCasts} ==>
              Tally(teams, fs, metric, a) + Phantoms(teams, fs, s, metric, a) as real ==
              Tally(teams, Accepted(fs, s), metric, a) + Refused(teams, Turned(fs, s), metric, a) as real
              + Unnoted(teams, fs, s, metric, a) as real
  {
    hide *;
    CreditedOrRefused(teams, fs, s, metric, a);
    CreditsAreCited(teams, fs, metric, a);
    CreditsAreCited(teams, Accepted(fs, s), metric, a);
    if metric in {Kills, Assists, Deaths, Buybacks, HealCasts} {
      CountsAreCited(teams, fs, metric, a);
      CountsAreCited(teams, Accepted(fs, s), metric, a);
    }
  }

  /** The fact names the account as killer, assistant or attacker. */
  predicate Names(teams: Teams, f: Fact, metric: Metric, a: string) {
    match f.body
    case DeathOf(_, _, killer, assists) => (metric == Kills && killer == a) || (metric == Assists && a in assists)
    case Damage(actor, target, objective, _) => actor == a && metric == DamageMetric(teams, actor, target, objective)
    case _ => false
  }

  predicate RefusedPhantom(teams: Teams, f: Fact, s: Stream, metric: Metric, a: string) {
    Hollow(f) && !Gated(f, s) && Names(teams, f, metric, a)
  }

  lemma HollowWorth(teams: Teams, f: Fact, metric: Metric, a: string)
    requires Hollow(f) && KeepsNotes(metric, a)
    ensures RefusedTimes(teams, f, metric, a) > 0 <==> Names(teams, f, metric, a)
  {
    hide DamageMetric;
  }

  lemma {:induction false} NoPhantoms(teams: Teams, fs: seq<Fact>, s: Stream, metric: Metric, a: string)
    requires KeepsNotes(metric, a)
    ensures Phantoms(teams, fs, s, metric, a) == 0 <==> forall i :: 0 <= i < |fs| ==>
              !RefusedPhantom(teams, fs[i], s, metric, a)
  {
    if fs != [] {
      var n := |fs| - 1;
      NoPhantoms(teams, fs[..n], s, metric, a);
      assert forall i :: 0 <= i < n ==> fs[..n][i] == fs[i];
      if Hollow(fs[n]) { HollowWorth(teams, fs[n], metric, a); }
      hide RefusedTimes, Names, Gated, Hollow, KeepsNotes;
    }
  }

  lemma {:induction false} NamedIsNoted(teams: Teams, fs: seq<Fact>, s: Stream, metric: Metric, a: string)
    requires KeepsNotes(metric, a)
    ensures Unnoted(teams, fs, s, metric, a) == 0
  {
    if fs != [] { NamedIsNoted(teams, fs[..|fs| - 1], s, metric, a); }
  }

  /** So where notes are kept the two sides agree just when no refused death without a
      victim names the account as killer or assistant, and no refused hit without a value
      as attacker. */
  lemma CountedOrRefusedWhen(teams: Teams, fs: seq<Fact>, s: Stream, metric: Metric, a: string)
    requires KeepsNotes(metric, a)
    ensures |Cited(teams, fs, metric, a)| ==
              |Cited(teams, Accepted(fs, s), metric, a)| + Refused(teams, Turned(fs, s), metric, a)
            <==> forall i :: 0 <= i < |fs| ==> !RefusedPhantom(teams, fs[i], s, metric, a)
    ensures metric in {Kills, Assists, Deaths, Buybacks} ==>
              (Tally(teams, fs, metric, a) ==
                 Tally(teams, Accepted(fs, s), metric, a) + Refused(teams, Turned(fs, s), metric, a) as real
               <==> forall i :: 0 <= i < |fs| ==> !RefusedPhantom(teams, fs[i], s, metric, a))
  {
    hide Cited, Tally, Refused, Turned, Accepted, RefusedPhantom, Phantoms, Unnoted;
    CountedOrRefused(teams, fs, s, metric, a);
    NamedIsNoted(teams, fs, s, metric, a);
    NoPhantoms(teams, fs, s, metric, a);
  }

  /** And they do disagree: one creep killed while the clock was not calibrated counts for
      nobody, yet leaves its killer a refused kill. */
  lemma PhantomKill(teams: Teams, s: Stream, killer: string)
    requires killer != ""
    ensures var fs := [Fact(1.0, false, 1, DeathOf("", "npc_dota_creep", killer, []))];
      && Tally(teams, fs, Kills, killer) == 0.0 && Tally(teams, Accepted(fs, s), Kills, killer) == 0.0
      && Refused(teams, Turned(fs, s), Kills, killer) == 1
  {
    var f := Fact(1.0, false, 1, DeathOf("", "npc_dota_creep", killer, []));
    assert [f][..0] == [];
    NothingYet(s);
    GateNext([], f, s);
    assert [] + [f] == [f];
  }

  /** So does a hit without a value: no damage either way, yet a refused hit. */
  lemma PhantomHit(teams: Teams, s: Stream, actor: string, target: string)
    requires actor != "" && EnemyHero(teams, actor, target)
    ensures var fs := [Fact(1.0, false, 1, Damage(actor, target, false, None))];
      && Cited(teams, fs, HeroDamage, actor) == [] && Cited(teams, Accepted(fs, s), HeroDamage, actor) == []
      && Refused(teams, Turned(fs, s), HeroDamage, actor) == 1
  {
    var f := Fact(1.0, false, 1, Damage(actor, target, false, None));
    assert [f][..0] == [];
    NothingYet(s);
    GateNext([], f, s);
    assert [] + [f] == [f];
  }

  // ---- values and their citations ----

  ghost predicate Numbered(fs: seq<Fact>) {
    forall i, j :: 0 <= i < j < |fs| ==> fs[i].seqNo != fs[j].seqNo
  }

  lemma {:induction false} CitedFacts(teams: Teams, fs: seq<Fact>, metric: Metric, a: string, n: int)
    requires metric != ExcludedDamage
    ensures n in Cited(teams, fs, metric, a) <==>
              exists i :: 0 <= i < |fs| && fs[i].seqNo == n && Times(teams, fs[i], metric, a) > 0
  {
    if fs != [] {
      var k := |fs| - 1;
      CitedFacts(teams, fs[..k], metric, a, n);
      RepeatLength(fs[k].seqNo, Times(teams, fs[k], metric, a));
      hide Repeat, Times;
      assert forall i :: 0 <= i < k ==> fs[..k][i] == fs[i];
      if i :| 0 <= i < |fs| && fs[i].seqNo == n && Times(teams, fs[i], metric, a) > 0 {
        if i < k { assert fs[..k][i].seqNo == n; }
      }
    }
  }

  /** The damage dealt by the facts whose numbers are cited. */
  ghost function DamageIn(fs: seq<Fact>, refs: set<int>): real {
    if fs == [] then 0.0
    else
      var f := fs[|fs| - 1];
      DamageIn(fs[..|fs| - 1], refs) +
          (if f.seqNo in refs && f.body.Damage? && f.body.value.Some? then f.body.value.value as real else 0.0)
  }

  lemma {:induction false} DamageOf(teams: Teams, fs: seq<Fact>, metric: Metric, a: string, refs: set<int>)
    requires metric in {HeroDamage, ObjectiveDamage}
    requires forall i :: 0 <= i < |fs| ==> (fs[i].seqNo in refs <==> Times(teams, fs[i], metric, a) > 0)
    ensures DamageIn(fs, refs) == Tally(teams, fs, metric, a)
  {
    if fs != [] {
      var n := |fs| - 1;
      assert forall i :: 0 <= i < n ==> fs[..n][i] == fs[i];
      DamageOf(teams, fs[..n], metric, a, refs);
    }
  }

  /** A published damage total can be rebuilt from nothing but its citations. */
  lemma DamageIsReconstructible(teams: Teams, fs: seq<Fact>, metric: Metric, a: string)
    requires Numbered(fs) && metric in {HeroDamage, ObjectiveDamage}
    ensures DamageIn(fs, set n | n in Cited(teams, fs, metric, a)) == Tally(teams, fs, metric, a)
  {
    var refs := set n | n in Cited(teams, fs, metric, a);
    forall i | 0 <= i < |fs| ensures fs[i].seqNo in refs <==> Times(teams, fs[i], metric, a) > 0 {
      CitedFacts(teams, fs, metric, a, fs[i].seqNo);
      hide Times, Cited;
    }
    DamageOf(teams, fs, metric, a, refs);
  }

  // ---- deaths ----

  lemma {:induction false} EventSources(teams: Teams, fs: seq<Fact>, a: string)
    ensures forall e :: e in EventsOf(teams, fs, a) ==> exists i :: 0 <= i < |fs| && LifeEventOf(fs[i]) == Some((a, e))
  {
    if fs != [] {
      var n := |fs| - 1;
      EventSources(teams, fs[..n], a);
      assert forall i :: 0 <= i < n ==> fs[..n][i] == fs[i];
      forall e | e in EventsOf(teams, fs, a) ensures exists i :: 0 <= i < |fs| && LifeEventOf(fs[i]) == Some((a, e)) {
        if e in EventsOf(teams, fs[..n], a) {
          var i :| 0 <= i < n && LifeEventOf(fs[..n][i]) == Some((a, e));
          assert LifeEventOf(fs[i]) == Some((a, e));
        } else {
          assert LifeEventOf(fs[n]) == Some((a, e));
        }
      }
    }
  }

  lemma EventsIdentified(teams: Teams, fs: seq<Fact>, a: string)
    requires Numbered(fs)
    ensures Identified(EventsOf(teams, fs, a))
  {
    EventSources(teams, fs, a);
    hide EventsOf;
    var events := EventsOf(teams, fs, a);
    forall x, y | x in events && y in events && x.seqNo == y.seqNo ensures x == y {
      var i :| 0 <= i < |fs| && LifeEventOf(fs[i]) == Some((a, x));
      var j :| 0 <= j < |fs| && LifeEventOf(fs[j]) == Some((a, y));
    }
  }

  /** Over every numbered fact list, the phases together never count more deaths than the
      whole match, and count as many just when no death is lost on a boundary. */
  lemma FactDeathsReconcile(teams: Teams, fs: seq<Fact>, s: Stream, a: string)
    requires Numbered(fs)
    ensures var lives := Lives(EventsOf(teams, fs, a), BoundHero(fs, a));
      var phased := Numerator(lives, s, Within(Laning)) + Numerator(lives, s, Within(Midgame)) +
            Numerator(lives, s, Within(Decisive));
      && phased <= Numerator(lives, s, WholeMatch)
      && (phased == Numerator(lives, s, WholeMatch) <==> forall life :: life in lives ==> !IsLost(life, s))
  {
    EventsIdentified(teams, fs, a);
    DeathsReconcile(EventsOf(teams, fs, a), BoundHero(fs, a), s);
  }
}
