/** Proven deaths: counted once in the whole match, and in at most one phase. */
module LifeDeaths {
  import opened Wrappers
  import opened Phases
  import opened LifeSpans
  import opened LifePhases

  /** A part counts as a death in its scope when its life ended by one there. */
  predicate CountsAsDeath(part: Life, s: Stream, scope: Scope) {
    part.lifeEnd.kind == Death && (scope == WholeMatch || PhaseAt(s, part.lifeEnd.second) == Some(scope.phase))
  }

  ghost function DeathIds(parts: seq<Life>, s: Stream, scope: Scope): set<(int, int)> {
    set part | part in parts && CountsAsDeath(part, s, scope) :: Id(part)
  }

  /** The facts that end a counted life. */
  ghost function DeathFacts(parts: seq<Life>, s: Stream, scope: Scope): set<int> {
    set part | part in parts && CountsAsDeath(part, s, scope) :: part.lifeEnd.seqNo
  }

  ghost predicate ListsOnce(refs: seq<int>, members: set<int>) {
    && (forall r :: r in refs <==> r in members)
    && (forall i, j :: 0 <= i < j < |refs| ==> refs[i] != refs[j])
  }

  ghost predicate Tallied(parts: seq<Life>, s: Stream, scope: Scope, seen: set<(int, int)>, n: nat, refs: seq<int>) {
    seen == DeathIds(parts, s, scope) && n == |seen| && ListsOnce(refs, DeathFacts(parts, s, scope))
  }

  /** The numerator counts distinct lives, however many parts they have, and cites the fact
      that ended each of them once. */
  method DeathNumerator(parts: seq<Life>, s: Stream, scope: Scope) returns (n: nat, refs: seq<int>)
    ensures n == |DeathIds(parts, s, scope)|
    ensures ListsOnce(refs, DeathFacts(parts, s, scope))
  {
    var seen: set<(int, int)> := {};
    n, refs := 0, [];
    assert Tallied(parts[..0], s, scope, seen, n, refs);
    for i := 0 to |parts|
      invariant Tallied(parts[..i], s, scope, seen, n, refs)
    {
      hide Tallied, PhaseAt, Id;
      var part := parts[i];
      assert parts[..i + 1] == parts[..i] + [part];
      if Id(part) in seen || part.lifeEnd.kind != Death {
        NothingTallied(parts[..i], part, s, scope, seen, n, refs);
        continue;
      }
      if scope != WholeMatch {
        var p := OfficialPhaseAt(s, part.lifeEnd.second);
        if p != Some(scope.phase) {
          NothingTallied(parts[..i], part, s, scope, seen, n, refs);
          continue;
        }
      }
      OneTallied(parts[..i], part, s, scope, seen, n, refs);
      seen, n := seen + {Id(part)}, n + 1;
      refs := if part.lifeEnd.seqNo in refs then refs else refs + [part.lifeEnd.seqNo];
    }
    assert parts[..|parts|] == parts;
  }

  lemma NothingTallied(
    parts: seq<Life>, part: Life, s: Stream, scope: Scope, seen: set<(int, int)>, n: nat, refs: seq<int>)
    requires Tallied(parts, s, scope, seen, n, refs) && (Id(part) in seen || !CountsAsDeath(part, s, scope))
    ensures Tallied(parts + [part], s, scope, seen, n, refs)
  {
    hide CountsAsDeath, DeathIds, DeathFacts, Id, ListsOnce;
    DeathIdsGrow(parts, part, s, scope);
    DeathFactsGrow(parts, part, s, scope);
    if Id(part) in seen {
      SeenIsCited(parts, part, s, scope);
      NothingNew(DeathIds(parts, s, scope), Id(part));
      NothingNew(DeathFacts(parts, s, scope), part.lifeEnd.seqNo);
    }
    NothingAdded(DeathIds(parts, s, scope));
    NothingAdded(DeathFacts(parts, s, scope));
  }

  lemma NothingNew<T>(s: set<T>, x: T)
    requires x in s
    ensures s + {x} == s
  {}

  lemma NothingAdded<T>(s: set<T>)
    ensures s + {} == s
  {}

  lemma OneTallied(parts: seq<Life>, part: Life, s: Stream, scope: Scope, seen: set<(int, int)>, n: nat, refs: seq<int>)
    requires Tallied(parts, s, scope, seen, n, refs) && Id(part) !in seen && CountsAsDeath(part, s, scope)
    ensures var r := part.lifeEnd.seqNo;
      Tallied(parts + [part], s, scope, seen + {Id(part)}, n + 1, if r in refs then refs else refs + [r])
  {
    DeathIdsGrow(parts, part, s, scope);
    DeathFactsGrow(parts, part, s, scope);
    hide CountsAsDeath, DeathIds, DeathFacts, Id;
  }

  lemma DeathIdsGrow(parts: seq<Life>, part: Life, s: Stream, scope: Scope)
    ensures DeathIds(parts + [part], s, scope) ==
      DeathIds(parts, s, scope) + (if CountsAsDeath(part, s, scope) then {Id(part)} else {})
  {
    forall p ensures p in parts + [part] <==> p in parts || p == part {}
  }

  lemma DeathFactsGrow(parts: seq<Life>, part: Life, s: Stream, scope: Scope)
    ensures DeathFacts(parts + [part], s, scope) ==
      DeathFacts(parts, s, scope) + (if CountsAsDeath(part, s, scope) then {part.lifeEnd.seqNo} else {})
  {
    forall p ensures p in parts + [part] <==> p in parts || p == part {}
  }

  /** A life already counted has its last fact cited already. */
  lemma SeenIsCited(parts: seq<Life>, part: Life, s: Stream, scope: Scope)
    requires Id(part) in DeathIds(parts, s, scope)
    ensures part.lifeEnd.seqNo in DeathFacts(parts, s, scope)
  {
    var p :| p in parts && CountsAsDeath(p, s, scope) && Id(p) == Id(part);
    assert p.lifeEnd.seqNo == part.lifeEnd.seqNo;
  }

  // ---- which lives have a part where ----

  /** The life shares time with some selected interval. */
  predicate Touches(life: Life, s: Stream, scope: Scope) {
    exists i :: 0 <= i < |s| && Selects(scope, s[i]) && Overlap(life, s[i]) > 0.0
  }

  lemma {:induction false} PartsOfMembers(life: Life, s: Stream, scope: Scope)
    ensures forall p :: p in PartsOf(life, s, scope) ==> p.lifeStart == life.lifeStart && p.lifeEnd == life.lifeEnd
    ensures PartsOf(life, s, scope) != [] <==> Touches(life, s, scope)
  {
    if s != [] {
      PartsOfMembers(life, s[..|s| - 1], scope);
      TouchesNext(life, s, scope);
      hide Touches, Selects, Overlap;
    }
  }

  lemma TouchesNext(life: Life, s: Stream, scope: Scope)
    requires s != []
    ensures var n := |s| - 1;
      Touches(life, s, scope) <==> Touches(life, s[..n], scope) || (Selects(scope, s[n]) && Overlap(life, s[n]) > 0.0)
  {
    hide Selects, Overlap;
    var n := |s| - 1;
    assert forall i :: 0 <= i < n ==> s[..n][i] == s[i];
  }

  /** The death of this life counts in this scope. */
  predicate DeathCounts(life: Life, s: Stream, scope: Scope) {
    Touches(life, s, scope) && CountsAsDeath(life, s, scope)
  }

  ghost function CountedLives(lives: seq<Life>, s: Stream, scope: Scope): set<(int, int)> {
    set life | life in lives && DeathCounts(life, s, scope) :: Id(life)
  }

  lemma {:induction false} DeathIdsAreLives(lives: seq<Life>, s: Stream, scope: Scope)
    ensures DeathIds(Parts(lives, s, scope), s, scope) == CountedLives(lives, s, scope)
  {
    if lives != [] {
      var n := |lives| - 1;
      var life, parts := lives[n], PartsOf(lives[n], s, scope);
      DeathIdsAreLives(lives[..n], s, scope);
      PartsOfMembers(life, s, scope);
      hide PartsOf;
      hide Touches;
      assert lives == lives[..n] + [life];
      DeathIdsOfOne(life, parts, s, scope);
      DeathIdsConcat(Parts(lives[..n], s, scope), parts, s, scope);
      CountedGrow(lives[..n], life, s, scope);
    }
  }

  lemma DeathIdsConcat(a: seq<Life>, b: seq<Life>, s: Stream, scope: Scope)
    ensures DeathIds(a + b, s, scope) == DeathIds(a, s, scope) + DeathIds(b, s, scope)
  {
    forall p ensures p in a + b <==> p in a || p in b {}
  }

  lemma DeathIdsOfOne(life: Life, parts: seq<Life>, s: Stream, scope: Scope)
    requires forall p :: p in parts ==> p.lifeStart == life.lifeStart && p.lifeEnd == life.lifeEnd
    ensures DeathIds(parts, s, scope) == if parts != [] && CountsAsDeath(life, s, scope) then {Id(life)} else {}
  {
    if parts != [] {
      assert parts[0] in parts;
    }
  }

  lemma CountedGrow(lives: seq<Life>, life: Life, s: Stream, scope: Scope)
    ensures CountedLives(lives + [life], s, scope) ==
              CountedLives(lives, s, scope) + (if DeathCounts(life, s, scope) then {Id(life)} else {})
  {
    forall p ensures p in lives + [life] <==> p in lives || p == life {}
  }

  // ---- reconciliation ----

  /** Facts are numbered, so an event is known by its number. */
  ghost predicate Identified(events: seq<LifeEvent>) {
    forall a, b :: a in events && b in events && a.seqNo == b.seqNo ==> a == b
  }

  ghost predicate IdsIdentify(lives: seq<Life>) {
    forall a, b :: a in lives && b in lives && Id(a) == Id(b) ==> a.lifeEnd == b.lifeEnd && a == b
  }

  lemma LivesIdentified(recorded: seq<LifeEvent>, bound: Option<string>)
    requires Identified(recorded)
    ensures IdsIdentify(Lives(recorded, bound))
  {
    LivesAreProven(recorded, bound);
    hide Lives;
    var lives := Lives(recorded, bound);
    forall a, b | a in lives && b in lives && Id(a) == Id(b) ensures a == b {
      assert Witnessed(a, recorded, bound) && Witnessed(b, recorded, bound);
    }
  }

  /** A death the whole match counts but no phase does: its life has no time in the phase
      where it ended. */
  predicate IsLost(life: Life, s: Stream) {
    && DeathCounts(life, s, WholeMatch)
    && (PhaseAt(s, life.lifeEnd.second).None? || !Touches(life, s, Within(PhaseAt(s, life.lifeEnd.second).value)))
  }

  ghost function Numerator(lives: seq<Life>, s: Stream, scope: Scope): nat {
    |CountedLives(lives, s, scope)|
  }

  lemma TouchesWhole(life: Life, s: Stream, scope: Scope)
    requires Touches(life, s, scope)
    ensures Touches(life, s, WholeMatch)
  {
    var i :| 0 <= i < |s| && Selects(scope, s[i]) && Overlap(life, s[i]) > 0.0;
    assert Selects(WholeMatch, s[i]);
  }

  lemma {:induction false} PhaseAtIsOfficial(s: Stream, sec: real)
    ensures PhaseAt(s, sec).Some? ==> Official(PhaseAt(s, sec).value)
  {
    if s != [] {
      PhaseAtIsOfficial(s[1..], sec);
    }
  }

  lemma PhaseSetsDisjoint(lives: seq<Life>, s: Stream, p: Phase, q: Phase)
    requires IdsIdentify(lives) && p != q
    ensures CountedLives(lives, s, Within(p)) !! CountedLives(lives, s, Within(q))
  {
    hide Touches;
  }

  lemma LostOrCounted(lives: seq<Life>, s: Stream)
    requires IdsIdentify(lives)
    ensures var whole := CountedLives(lives, s, WholeMatch);
      var phased := CountedLives(lives, s, Within(Laning)) + CountedLives(lives, s, Within(Midgame)) +
            CountedLives(lives, s, Within(Decisive));
      && phased <= whole
      && (phased == whole <==> forall life :: life in lives ==> !IsLost(life, s))
  {
    var whole := CountedLives(lives, s, WholeMatch);
    var phased := CountedLives(lives, s, Within(Laning)) + CountedLives(lives, s, Within(Midgame)) +
          CountedLives(lives, s, Within(Decisive));
    forall life, scope | life in lives && DeathCounts(life, s, scope) ensures DeathCounts(life, s, WholeMatch) {
      TouchesWhole(life, s, scope);
    }
    forall life | life in lives && DeathCounts(life, s, WholeMatch)
      ensures IsLost(life, s) <==> Id(life) !in phased
    {
      PhaseAtIsOfficial(s, life.lifeEnd.second);
      hide Touches;
    }
    hide Touches;
    assert forall life :: life in lives && DeathCounts(life, s, WholeMatch) ==> Id(life) in whole;
  }

  /** Over every event list: each phase counts a death at most once overall, the phases
      never count more than the whole match, and they count as many just when no death
      is lost. */
  lemma DeathsReconcile(recorded: seq<LifeEvent>, bound: Option<string>, s: Stream)
    requires Identified(recorded)
    ensures var lives := Lives(recorded, bound);
      var phased := Numerator(lives, s, Within(Laning)) + Numerator(lives, s, Within(Midgame)) +
            Numerator(lives, s, Within(Decisive));
      && phased <= Numerator(lives, s, WholeMatch)
      && (phased == Numerator(lives, s, WholeMatch) <==> forall life :: life in lives ==> !IsLost(life, s))
  {
    LivesIdentified(recorded, bound);
    var lives := Lives(recorded, bound);
    hide Lives;
    LostOrCounted(lives, s);
    PhaseSetsDisjoint(lives, s, Laning, Midgame);
    PhaseSetsDisjoint(lives, s, Laning, Decisive);
    PhaseSetsDisjoint(lives, s, Midgame, Decisive);
    CountUnion(
      CountedLives(lives, s, Within(Laning)), CountedLives(lives, s, Within(Midgame)),
      CountedLives(lives, s, Within(Decisive)), CountedLives(lives, s, WholeMatch));
  }

  lemma CountUnion<T>(a: set<T>, b: set<T>, c: set<T>, whole: set<T>)
    requires a !! b && a !! c && b !! c && a + b + c <= whole
    ensures |a| + |b| + |c| <= |whole|
    ensures |a| + |b| + |c| == |whole| <==> a + b + c == whole
  {
    assert |a + b + c| == |a| + |b| + |c|;
    var rest := whole - (a + b + c);
    assert whole == (a + b + c) + rest && |whole| == |a + b + c| + |rest|;
    assert rest == {} <==> a + b + c == whole;
  }

  /** Over a tiling, exactly: a counted death is lost just when its life ends at or past the
      end of the match, or on the first second of an interval of a phase it has no time in. */
  lemma OnlyBoundaryDeathsAreLost(life: Life, s: Stream, eligible: int)
    requires Tiling(s, 0, eligible) && AllOfficial(s)
    requires 0.0 <= life.start < life.end == life.lifeEnd.second
    ensures IsLost(life, s) <==>
      && DeathCounts(life, s, WholeMatch)
      && (life.end >= eligible as real ||
          exists i :: 0 <= i < |s| && life.end == s[i].start as real && !Touches(life, s, Within(s[i].phase)))
  {
    hide PhaseAt, Touches, DeathCounts;
    TilingOrdered(s, 0, eligible);
    if life.end >= eligible as real {
      PastTheEnd(s, life.end);
    } else {
      forall j | 0 <= j < |s| && life.end == s[j].start as real
        ensures PhaseAt(s, life.end) == Some(s[j].phase)
      {
        PhaseAtIndex(s, 0, eligible, j, life.end);
      }
      var i := Containing(s, 0, eligible, life.end);
      PhaseAtIndex(s, 0, eligible, i, life.end);
      if life.end > s[i].start as real { TouchesWhereItEnds(life, s, i); }
    }
  }

  lemma TouchesWhereItEnds(life: Life, s: Stream, i: nat)
    requires i < |s| && Official(s[i].phase) && life.start < life.end
    requires s[i].start as real < life.end <= s[i].end as real
    ensures Touches(life, s, Within(s[i].phase))
  {
    assert Selects(Within(s[i].phase), s[i]) && Overlap(life, s[i]) > 0.0;
  }

  lemma {:induction false} PastTheEnd(s: Stream, sec: real)
    requires forall i :: 0 <= i < |s| ==> s[i].end as real <= sec
    ensures PhaseAt(s, sec) == None
  {
    if s != [] { PastTheEnd(s[1..], sec); }
  }

  lemma {:induction false} Containing(s: Stream, lo: int, hi: int, sec: real) returns (i: nat)
    requires Tiling(s, lo, hi) && lo as real <= sec < hi as real
    ensures i < |s| && s[i].start as real <= sec < s[i].end as real
  {
    var n := |s| - 1;
    if sec >= s[n].start as real {
      i := n;
    } else {
      i := Containing(s[..n], lo, s[n].start, sec);
    }
  }

  lemma {:induction false} PhaseAtIndex(s: Stream, lo: int, hi: int, i: nat, sec: real)
    requires Tiling(s, lo, hi) && AllOfficial(s) && i < |s| && sec >= 0.0
    requires s[i].start as real <= sec < s[i].end as real
    ensures PhaseAt(s, sec) == Some(s[i].phase)
    decreases |s|
  {
    if i > 0 {
      TilingOrdered(s, lo, hi);
      assert s[0].end <= s[i].start;
      assert Tiling(s[1..], s[0].end, hi) by {
        assert s[0].end == s[1].start;
        forall k | 0 < k < |s[1..]| ensures s[1..][k - 1].end == s[1..][k].start {
          assert s[k].end == s[k + 1].start;
        }
      }
      PhaseAtIndex(s[1..], s[0].end, hi, i - 1, sec);
    }
  }

  /** So when nobody dies on the first second of an interval, the phases account for
      every death of the match. */
  lemma InteriorDeathsReconcile(recorded: seq<LifeEvent>, bound: Option<string>, s: Stream, eligible: int)
    requires Identified(recorded) && Tiling(s, 0, eligible) && AllOfficial(s)
    requires forall e :: e in recorded ==> 0.0 <= e.second < eligible as real
    requires forall life, i :: life in Lives(recorded, bound) && 0 <= i < |s| ==> life.end != s[i].start as real
    ensures var lives := Lives(recorded, bound);
      Numerator(lives, s, WholeMatch) ==
        Numerator(lives, s, Within(Laning)) + Numerator(lives, s, Within(Midgame)) +
            Numerator(lives, s, Within(Decisive))
  {
    var lives := Lives(recorded, bound);
    LivesAreProven(recorded, bound);
    DeathsReconcile(recorded, bound, s);
    hide Lives, Numerator;
    forall life | life in lives ensures !IsLost(life, s) {
      assert Witnessed(life, recorded, bound);
      OnlyBoundaryDeathsAreLost(life, s, eligible);
    }
  }

  /** The loss is real: a hero lives from second 2 and dies at second 10, just as Laning
      gives way to Midgame. The match counts the death, and no phase does. */
  lemma BoundaryDeathIsLost(hero: string)
    ensures var recorded := [LifeEvent(2.0, Respawn, None, hero, 1), LifeEvent(10.0, Death, None, hero, 2)];
      var s := [PhaseInterval(0, 10, Laning, 0, ""), PhaseInterval(10, 20, Midgame, 0, "")];
      var lives := Lives(recorded, Some(hero));
      && Identified(recorded) && Tiling(s, 0, 20) && AllOfficial(s)
      && |lives| == 1 && IsLost(lives[0], s)
      && Numerator(lives, s, WholeMatch) == 1
      && Numerator(lives, s, Within(Laning)) + Numerator(lives, s, Within(Midgame)) +
           Numerator(lives, s, Within(Decisive)) == 0
  {
    var born, dead := LifeEvent(2.0, Respawn, None, hero, 1), LifeEvent(10.0, Death, None, hero, 2);
    var s := [PhaseInterval(0, 10, Laning, 0, ""), PhaseInterval(10, 20, Midgame, 0, "")];
    var life := Life(2.0, 10.0, born, dead);
    hide Lives, Touches, PhaseAt, Tiling, AllOfficial, Numerator;
    LaningThenMidgame();
    OneLife(born, dead);
    TouchesLaningOnly(life);
    CountedOne(life, s, WholeMatch);
    CountedOne(life, s, Within(Laning));
    CountedOne(life, s, Within(Midgame));
    CountedOne(life, s, Within(Decisive));
  }

  lemma LaningThenMidgame()
    ensures var s := [PhaseInterval(0, 10, Laning, 0, ""), PhaseInterval(10, 20, Midgame, 0, "")];
      Tiling(s, 0, 20) && AllOfficial(s) && PhaseAt(s, 10.0) == Some(Midgame)
  {
    var s := [PhaseInterval(0, 10, Laning, 0, ""), PhaseInterval(10, 20, Midgame, 0, "")];
    assert s[1..][0] == s[1];
  }

  lemma TouchesLaningOnly(life: Life)
    requires life.start == 2.0 && life.end == 10.0
    ensures var s := [PhaseInterval(0, 10, Laning, 0, ""), PhaseInterval(10, 20, Midgame, 0, "")];
      Touches(life, s, WholeMatch) && !Touches(life, s, Within(Midgame)) && !Touches(life, s, Within(Decisive))
  {
    var s := [PhaseInterval(0, 10, Laning, 0, ""), PhaseInterval(10, 20, Midgame, 0, "")];
    assert Selects(WholeMatch, s[0]) && Overlap(life, s[0]) > 0.0;
  }

  lemma CountedOne(life: Life, s: Stream, scope: Scope)
    ensures Numerator([life], s, scope) == if DeathCounts(life, s, scope) then 1 else 0
  {
    hide DeathCounts;
    assert life in [life] && forall x :: x in [life] ==> x == life;
    assert CountedLives([life], s, scope) == if DeathCounts(life, s, scope) then {Id(life)} else {};
  }

  lemma OneLife(born: LifeEvent, dead: LifeEvent)
    requires born.kind == Respawn && dead.kind == Death && born.second < dead.second && born.hero == dead.hero
    ensures Lives([born, dead], Some(born.hero)) == [Life(born.second, dead.second, born, dead)]
  {
    var recorded, bound := [born, dead], Some(born.hero);
    assert recorded[..1] == [born] && [born][..0] == [];
    assert SortEvents([born]) == [born] && SortEvents(recorded) == recorded;
    assert ScanEvents([born], bound) == Scan(Some(born), false, Alive, [], []);
  }
}
