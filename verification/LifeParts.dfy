/** Which parts, gaps and deaths of the lives lie in a scope, and how long a phase lasts, in
    terms of the phase intervals alone. */
module LifeParts {
  import opened Wrappers
  import opened Phases
  import opened Splicing
  import opened LifeSpans
  import opened LifePhases
  import opened LifeDeaths

  /** Interval `i` is an official one of the scope. */
  predicate InScopeAt(s: Stream, i: int, scope: Scope) {
    && 0 <= i < |s|
    && match scope
       case WholeMatch => s[i].phase == Laning || s[i].phase == Midgame || s[i].phase == Decisive
       case Within(p) => s[i].phase == p && !p.Other?
  }

  predicate Holds(iv: PhaseInterval, second: real) {
    iv.start as real <= second && second < iv.end as real
  }

  /** The part is what interval and life have in common: it begins with the later of their
      starts and ends with the earlier of their ends. */
  predicate Common(part: Life, life: Life, iv: PhaseInterval) {
    && part.lifeStart == life.lifeStart && part.lifeEnd == life.lifeEnd
    && part.start < part.end
    && part.start >= life.start && part.start >= iv.start as real
    && (part.start == life.start || part.start == iv.start as real)
    && part.end <= life.end && part.end <= iv.end as real
    && (part.end == life.end || part.end == iv.end as real)
  }

  ghost predicate IsPart(part: Life, life: Life, s: Stream, scope: Scope) {
    exists i :: InScopeAt(s, i, scope) && Common(part, life, s[i])
  }

  lemma IsPartNext(part: Life, life: Life, s: Stream, scope: Scope)
    requires s != []
    ensures var n := |s| - 1;
      IsPart(part, life, s, scope) <==>
        IsPart(part, life, s[..n], scope) || (InScopeAt(s, n, scope) && Common(part, life, s[n]))
  {
    hide Common;
    var n := |s| - 1;
    if i :| InScopeAt(s, i, scope) && Common(part, life, s[i]) {
      assert i < n ==> InScopeAt(s[..n], i, scope) && Common(part, life, s[..n][i]);
    }
    if i :| InScopeAt(s[..n], i, scope) && Common(part, life, s[..n][i]) {
      assert InScopeAt(s, i, scope) && Common(part, life, s[i]);
    }
  }

  lemma OneCut(part: Life, life: Life, s: Stream, n: int, scope: Scope)
    requires 0 <= n < |s|
    ensures InScopeAt(s, n, scope) <==> Selects(scope, s[n])
    ensures Common(part, life, s[n]) <==>
      Overlap(life, s[n]) > 0.0 &&
      part == life.(start := Max(life.start, s[n].start as real), end := Min(life.end, s[n].end as real))
  {}

  /** The parts of a life in a scope are exactly what it has in common with the official
      intervals of the scope. */
  lemma {:induction false} PartsOfAreExact(life: Life, s: Stream, scope: Scope)
    ensures forall p :: p in PartsOf(life, s, scope) <==> IsPart(p, life, s, scope)
  {
    forall p ensures p in PartsOf(life, s, scope) <==> IsPart(p, life, s, scope) {
      if s != [] {
        var n := |s| - 1;
        PartsOfAreExact(life, s[..n], scope);
        IsPartNext(p, life, s, scope);
        OneCut(p, life, s, n, scope);
        hide IsPart, InScopeAt, Common, Selects, Overlap;
      }
    }
  }

  lemma {:induction false} PartsAreExact(lives: seq<Life>, s: Stream, scope: Scope)
    ensures forall p :: p in Parts(lives, s, scope) <==> exists k :: 0 <= k < |lives| && IsPart(p, lives[k], s, scope)
  {
    forall p ensures p in Parts(lives, s, scope) <==> exists k :: 0 <= k < |lives| && IsPart(p, lives[k], s, scope) {
      if lives != [] {
        var n := |lives| - 1;
        PartsAreExact(lives[..n], s, scope);
        PartsOfAreExact(lives[n], s, scope);
        hide PartsOf, IsPart;
        assert forall k :: 0 <= k < n ==> lives[..n][k] == lives[k];
        if k :| 0 <= k < |lives| && IsPart(p, lives[k], s, scope) {
          assert k < n ==> IsPart(p, lives[..n][k], s, scope);
        }
      }
    }
  }

  /** Time in a scope is the summed length of the parts there. */
  lemma {:induction false} TimeOfIsLength(life: Life, s: Stream, scope: Scope)
    ensures TimeOf(life, s, scope) == TotalLength(PartsOf(life, s, scope))
  {
    if s != [] {
      var n := |s| - 1;
      TimeOfIsLength(life, s[..n], scope);
      var rest := PartsOf(life, s[..n], scope);
      var part := life.(start := Max(life.start, s[n].start as real), end := Min(life.end, s[n].end as real));
      LengthMore(rest, part);
      assert rest + [] == rest && Overlap(life, s[n]) == Max(0.0, part.end - part.start);
      hide TotalLength, Selects, Overlap, Min;
    }
  }

  lemma LengthMore(lives: seq<Life>, life: Life)
    ensures TotalLength(lives + [life]) == TotalLength(lives) + (life.end - life.start)
  {
    assert (lives + [life])[..|lives|] == lives;
  }

  lemma {:induction false} LengthConcat(a: seq<Life>, b: seq<Life>)
    ensures TotalLength(a + b) == TotalLength(a) + TotalLength(b)
  {
    if b == [] {
      assert a + b == a;
    } else {
      var n := |b| - 1;
      LengthConcat(a, b[..n]);
      assert (a + b)[..|a + b| - 1] == a + b[..n];
    }
  }

  lemma {:induction false} TimeIsLength(lives: seq<Life>, s: Stream, scope: Scope)
    ensures Time(lives, s, scope) == TotalLength(Parts(lives, s, scope))
  {
    if lives != [] {
      var n := |lives| - 1;
      TimeIsLength(lives[..n], s, scope);
      TimeOfIsLength(lives[n], s, scope);
      LengthConcat(Parts(lives[..n], s, scope), PartsOf(lives[n], s, scope));
    }
  }

  /** The parts come in order of time, none overlapping another. */
  lemma {:induction false} PartsOfInOrder(life: Life, s: Stream, lo: int, hi: int, scope: Scope)
    requires Tiling(s, lo, hi)
    ensures Disjoint(PartsOf(life, s, scope))
    ensures forall p :: p in PartsOf(life, s, scope) ==>
              life.start <= p.start && p.end <= life.end && p.end <= hi as real
  {
    var n := |s| - 1;
    if n > 0 {
      assert s[n - 1].end == s[n].start;
      assert Tiling(s[..n], lo, s[n].start) by { TilingPart(s, lo, hi, 0, n); assert s[0..n] == s[..n]; }
      PartsOfInOrder(life, s[..n], lo, s[n].start, scope);
    } else {
      assert s[..n] == [];
    }
    var rest := PartsOf(life, s[..n], scope);
    assert forall k :: 0 <= k < |rest| ==> rest[k] in rest;
  }

  lemma {:induction false} PartsInOrder(lives: seq<Life>, s: Stream, lo: int, hi: int, scope: Scope)
    requires Tiling(s, lo, hi) && Disjoint(lives)
    ensures Disjoint(Parts(lives, s, scope))
    ensures lives != [] ==> forall p :: p in Parts(lives, s, scope) ==> p.end <= lives[|lives| - 1].end
  {
    if lives != [] {
      var n := |lives| - 1;
      PartsInOrder(lives[..n], s, lo, hi, scope);
      PartsOfInOrder(lives[n], s, lo, hi, scope);
      assert n > 0 ==> lives[n - 1].end <= lives[n].start;
      hide Tiling, PartsOf, Disjoint;
      PartsJoin(Parts(lives[..n], s, scope), PartsOf(lives[n], s, scope), lives[n].start);
    }
  }

  lemma PartsJoin(a: seq<Life>, b: seq<Life>, at: real)
    requires Disjoint(a) && Disjoint(b)
    requires (forall p :: p in a ==> p.end <= at) && (forall p :: p in b ==> at <= p.start)
    ensures Disjoint(a + b)
  {
    assert (forall i :: 0 <= i < |a| ==> a[i].end <= at) by { assert forall i :: 0 <= i < |a| ==> a[i] in a; }
    assert (forall i :: 0 <= i < |b| ==> at <= b[i].start) by { assert forall i :: 0 <= i < |b| ==> b[i] in b; }
    var all := a + b;
    forall i, j | 0 <= i < j < |all| ensures all[i].end <= all[j].start {
      assert all[i] == (if i < |a| then a[i] else b[i - |a|]) && all[j] == (if j < |a| then a[j] else b[j - |a|]);
    }
  }

  // ---- gaps ----

  ghost predicate HeldAt(s: Stream, second: real, scope: Scope) {
    exists i :: InScopeAt(s, i, scope) && Holds(s[i], second)
  }

  lemma HeldIsInScope(s: Stream, second: real, scope: Scope)
    ensures HeldAt(s, second, scope) <==> InScope(second, s, scope)
  {
    forall i | 0 <= i < |s| ensures InScopeAt(s, i, scope) <==> Selects(scope, s[i]) {}
    hide Selects;
  }

  /** The gaps in a scope are exactly those that an official interval of the scope holds, in
      their order. */
  lemma {:induction false} GapsAreExact(gaps: seq<Gap>, s: Stream, scope: Scope) returns (at: seq<int>)
    ensures |at| == |GapsWithin(gaps, s, scope)| && forall j, k :: 0 <= j < k < |at| ==> at[j] < at[k]
    ensures forall k :: 0 <= k < |at| ==> 0 <= at[k] < |gaps| && GapsWithin(gaps, s, scope)[k] == gaps[at[k]]
    ensures forall g :: g in at <==> 0 <= g < |gaps| && HeldAt(s, gaps[g].second, scope)
  {
    if gaps == [] {
      at := [];
    } else {
      var n := |gaps| - 1;
      at := GapsAreExact(gaps[..n], s, scope);
      HeldIsInScope(s, gaps[n].second, scope);
      hide InScope, HeldAt;
      at := GapsNext(gaps, s, scope, GapsWithin(gaps[..n], s, scope), at);
    }
  }

  lemma GapsNext(gaps: seq<Gap>, s: Stream, scope: Scope, inside: seq<Gap>, before: seq<int>) returns (at: seq<int>)
    requires gaps != []
    requires var n := |gaps| - 1;
      && |before| == |inside| && (forall j, k :: 0 <= j < k < |before| ==> before[j] < before[k])
      && (forall k :: 0 <= k < |before| ==> 0 <= before[k] < n && inside[k] == gaps[..n][before[k]])
      && (forall g :: g in before <==> 0 <= g < n && HeldAt(s, gaps[..n][g].second, scope))
    ensures var last := gaps[|gaps| - 1];
      var all := if HeldAt(s, last.second, scope) then inside + [last] else inside;
      && |at| == |all| && (forall j, k :: 0 <= j < k < |at| ==> at[j] < at[k])
      && (forall k :: 0 <= k < |at| ==> 0 <= at[k] < |gaps| && all[k] == gaps[at[k]])
      && (forall g :: g in at <==> 0 <= g < |gaps| && HeldAt(s, gaps[g].second, scope))
  {
    hide HeldAt;
    var n := |gaps| - 1;
    assert forall g :: 0 <= g < n ==> gaps[..n][g] == gaps[g];
    at := if HeldAt(s, gaps[n].second, scope) then before + [n] else before;
  }

  // ---- deaths ----

  /** A life's death counts in a scope just when it ends by a death, has time in the scope,
      and, for a phase, ends while that phase lasts. */
  lemma DeathCountsWhen(life: Life, s: Stream, scope: Scope, eligible: int)
    requires Tiling(s, 0, eligible) && AllOfficial(s)
    ensures DeathCounts(life, s, scope) <==>
      && life.lifeEnd.kind == Death && (exists p :: IsPart(p, life, s, scope))
      && (scope == WholeMatch || exists i :: InScopeAt(s, i, scope) && Holds(s[i], life.lifeEnd.second))
  {
    TouchesWhen(life, s, scope);
    PhaseWhen(s, scope, eligible, life.lifeEnd.second);
    hide Touches, IsPart, InScopeAt, Holds, PhaseAt;
  }

  lemma TouchesWhen(life: Life, s: Stream, scope: Scope)
    ensures Touches(life, s, scope) <==> exists p :: IsPart(p, life, s, scope)
  {
    if Touches(life, s, scope) {
      var i :| 0 <= i < |s| && Selects(scope, s[i]) && Overlap(life, s[i]) > 0.0;
      var p := life.(start := Max(life.start, s[i].start as real), end := Min(life.end, s[i].end as real));
      OneCut(p, life, s, i, scope);
      assert IsPart(p, life, s, scope);
    }
    if p :| IsPart(p, life, s, scope) {
      var i :| InScopeAt(s, i, scope) && Common(p, life, s[i]);
      OneCut(p, life, s, i, scope);
    }
  }

  lemma PhaseWhen(s: Stream, scope: Scope, eligible: int, second: real)
    requires Tiling(s, 0, eligible) && AllOfficial(s)
    ensures scope != WholeMatch ==>
      (PhaseAt(s, second) == Some(scope.phase) <==> exists i :: InScopeAt(s, i, scope) && Holds(s[i], second))
  {
    TilingOrdered(s, 0, eligible);
    if scope != WholeMatch {
      if 0.0 <= second < eligible as real {
        var i := Containing(s, 0, eligible, second);
        PhaseAtIndex(s, 0, eligible, i, second);
        forall k | InScopeAt(s, k, scope) && Holds(s[k], second) ensures k == i {}
        assert Holds(s[i], second);
      } else if second >= eligible as real {
        PastTheEnd(s, second);
      } else {
        assert forall i :: 0 <= i < |s| ==> s[i].start >= 0;
      }
    }
  }

  // ---- how long a phase lasts ----

  function Seconds(lo: int, hi: int): set<int>
    decreases hi - lo
  {
    if lo >= hi then {} else Seconds(lo, hi - 1) + {hi - 1}
  }

  lemma {:induction false} SecondsAre(lo: int, hi: int)
    requires lo <= hi
    ensures |Seconds(lo, hi)| == hi - lo && forall t :: t in Seconds(lo, hi) <==> lo <= t < hi
    decreases hi - lo
  {
    if lo < hi { SecondsAre(lo, hi - 1); }
  }

  ghost function SecondsOf(s: Stream, phase: Phase, lo: int, hi: int): set<int> {
    set t | t in Seconds(lo, hi) && LabelAt(s, t) == Some(phase)
  }

  /** A phase lasts as long as there are seconds labelled with it. */
  lemma {:induction false} PhaseLasts(s: Stream, lo: int, hi: int, phase: Phase)
    requires Tiling(s, lo, hi) && Official(phase)
    ensures PhaseDuration(s, Within(phase)) == |SecondsOf(s, phase, lo, hi)| as real
  {
    var n := |s| - 1;
    var at := s[n].start;
    LastSeconds(s, lo, hi, phase);
    if n > 0 {
      assert s[n - 1].end == at;
      hide Tiling, LabelAt, SecondsOf;
      assert Tiling(s[..n], lo, at) by { TilingPart(s, lo, hi, 0, n); assert s[0..n] == s[..n]; }
      PhaseLasts(s[..n], lo, at, phase);
    } else {
      assert s[..n] == [];
    }
  }

  /** The seconds of a phase are those before the last interval and, under its label, its own. */
  lemma LastSeconds(s: Stream, lo: int, hi: int, phase: Phase)
    requires Tiling(s, lo, hi)
    ensures var n := |s| - 1; var at := s[n].start;
      && lo <= at < hi
      && |SecondsOf(s, phase, lo, hi)| ==
           (if n == 0 then 0 else |SecondsOf(s[..n], phase, lo, at)|) + (if s[n].phase == phase then hi - at else 0)
  {
    var n := |s| - 1;
    var at := s[n].start;
    TilingOrdered(s, lo, hi);
    SecondsAre(lo, hi);
    SecondsAre(lo, at);
    SecondsAre(at, hi);
    var before := SecondsOf(s[..n], phase, lo, at);
    var own := if s[n].phase == phase then Seconds(at, hi) else {};
    forall t | lo <= t < hi ensures LabelAt(s, t) == if t < at then LabelAt(s[..n], t) else Some(s[n].phase) {
      LabelOfLast(s, lo, hi, t);
    }
    hide LabelAt, Tiling;
    if n == 0 { assert lo == at && before == {}; }
    forall t ensures t in SecondsOf(s, phase, lo, hi) <==> t in before || t in own {
      assert t in Seconds(lo, hi) <==> lo <= t < hi;
    }
    TwoParts(SecondsOf(s, phase, lo, hi), before, own);
    hide Seconds;
  }

  lemma TwoParts<T>(whole: set<T>, a: set<T>, b: set<T>)
    requires a !! b && forall x :: x in whole <==> x in a || x in b
    ensures |whole| == |a| + |b|
  {
    assert whole == a + b;
  }

  lemma LabelOfLast(s: Stream, lo: int, hi: int, t: int)
    requires Tiling(s, lo, hi) && lo <= t < hi
    ensures var n := |s| - 1; LabelAt(s, t) == if t < s[n].start then LabelAt(s[..n], t) else Some(s[n].phase)
  {
    var n := |s| - 1;
    LabelAtAppend(s[..n], s[n], t);
    assert s == s[..n] + [s[n]];
    if n > 0 {
      TilingPart(s, lo, hi, 0, n);
      assert s[0..n] == s[..n] && s[n - 1].end == s[n].start;
      LabelDefined(s[..n], lo, s[n].start, t);
    }
  }
}
