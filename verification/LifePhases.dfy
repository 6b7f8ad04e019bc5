/** Proven lives cut by the official phases: durations add up, coverage never exceeds
    the phase, and deaths are counted once. */
module LifePhases {
  import opened Wrappers
  import opened Phases
  import opened LifeSpans

  /** The subject window of a metric: the whole match or one phase. */
  datatype Scope = WholeMatch | Within(phase: Phase)

  predicate Selects(scope: Scope, iv: PhaseInterval) {
    Official(iv.phase) && (scope == WholeMatch || scope == Within(iv.phase))
  }

  function Max(a: real, b: real): real { if a > b then a else b }

  function Min(a: real, b: real): real { if a < b then a else b }

  function Overlap(life: Life, iv: PhaseInterval): real {
    Max(0.0, Min(life.end, iv.end as real) - Max(life.start, iv.start as real))
  }

  // ---- validity of the phase stream ----

  method ValidOfficialPhaseCoverage(s: Stream, eligible: int) returns (ok: bool)
    ensures ok <==> eligible > 0 && Tiling(s, 0, eligible) && AllOfficial(s)
  {
    if eligible <= 0 || |s| == 0 {
      return false;
    }
    var prev := 0;
    for i := 0 to |s|
      invariant prev == if i == 0 then 0 else s[i - 1].end
      invariant i > 0 ==> s[0].start == 0
      invariant forall j :: 0 <= j < i ==> Official(s[j].phase) && s[j].start < s[j].end
      invariant forall j :: 0 < j < i ==> s[j - 1].end == s[j].start
    {
      if !Official(s[i].phase) || s[i].start != prev || s[i].end <= s[i].start {
        return false;
      }
      prev := s[i].end;
    }
    return prev == eligible;
  }

  /** The official phase of an instant. */
  function PhaseAt(s: Stream, sec: real): Option<Phase> {
    if sec < 0.0 || s == [] then None
    else if Official(s[0].phase) && s[0].start as real <= sec < s[0].end as real then Some(s[0].phase)
    else PhaseAt(s[1..], sec)
  }

  method OfficialPhaseAt(s: Stream, sec: real) returns (p: Option<Phase>)
    ensures p == PhaseAt(s, sec)
  {
    if sec < 0.0 {
      return None;
    }
    for i := 0 to |s|
      invariant PhaseAt(s, sec) == PhaseAt(s[i..], sec)
    {
      assert s[i..][1..] == s[i + 1..];
      if Official(s[i].phase) && sec >= s[i].start as real && sec < s[i].end as real {
        return Some(s[i].phase);
      }
    }
    return None;
  }

  // ---- cutting lives by phases ----

  function PartsOf(life: Life, s: Stream, scope: Scope): seq<Life> {
    if s == [] then []
    else
      var n := |s| - 1;
      PartsOf(life, s[..n], scope) +
      (if Selects(scope, s[n]) && Overlap(life, s[n]) > 0.0
       then [life.(start := Max(life.start, s[n].start as real), end := Min(life.end, s[n].end as real))] else [])
  }

  function Parts(lives: seq<Life>, s: Stream, scope: Scope): seq<Life> {
    if lives == [] then [] else Parts(lives[..|lives| - 1], s, scope) + PartsOf(lives[|lives| - 1], s, scope)
  }

  /** Proven time of one life inside the scope. */
  function TimeOf(life: Life, s: Stream, scope: Scope): real {
    if s == [] then 0.0
    else TimeOf(life, s[..|s| - 1], scope) + (if Selects(scope, s[|s| - 1]) then Overlap(life, s[|s| - 1]) else 0.0)
  }

  function Time(lives: seq<Life>, s: Stream, scope: Scope): real {
    if lives == [] then 0.0 else Time(lives[..|lives| - 1], s, scope) + TimeOf(lives[|lives| - 1], s, scope)
  }

  /** The gaps whose instant lies in a selected interval. */
  function GapsWithin(gaps: seq<Gap>, s: Stream, scope: Scope): seq<Gap> {
    if gaps == [] then []
    else
      var n := |gaps| - 1;
      GapsWithin(gaps[..n], s, scope) + (if InScope(gaps[n].second, s, scope) then [gaps[n]] else [])
  }

  predicate InScope(sec: real, s: Stream, scope: Scope) {
    exists i :: 0 <= i < |s| && Selects(scope, s[i]) && s[i].start as real <= sec < s[i].end as real
  }

  method LifeIntersections(
    lives: seq<Life>, gaps: seq<Gap>, s: Stream, scope: Scope)
    returns (parts: seq<Life>, inside: seq<Gap>, duration: real)
    ensures parts == Parts(lives, s, scope) && inside == GapsWithin(gaps, s, scope) && duration == Time(lives, s, scope)
  {
    parts, duration := [], 0.0;
    for i := 0 to |lives|
      invariant parts == Parts(lives[..i], s, scope) && duration == Time(lives[..i], s, scope)
    {
      var part, time := CutLife(lives[i], s, scope);
      assert lives[..i + 1][..i] == lives[..i];
      parts, duration := parts + part, duration + time;
    }
    assert lives[..|lives|] == lives;
    inside := GapsInScope(gaps, s, scope);
  }

  method CutLife(life: Life, s: Stream, scope: Scope) returns (parts: seq<Life>, duration: real)
    ensures parts == PartsOf(life, s, scope) && duration == TimeOf(life, s, scope)
  {
    parts, duration := [], 0.0;
    for j := 0 to |s|
      invariant parts == PartsOf(life, s[..j], scope) && duration == TimeOf(life, s[..j], scope)
    {
      assert s[..j + 1][..j] == s[..j];
      if !Selects(scope, s[j]) {
        continue;
      }
      var start := Max(life.start, s[j].start as real);
      var end := Min(life.end, s[j].end as real);
      if end <= start {
        continue;
      }
      parts := parts + [life.(start := start, end := end)];
      duration := duration + (end - start);
    }
    assert s[..|s|] == s;
  }

  method GapsInScope(gaps: seq<Gap>, s: Stream, scope: Scope) returns (inside: seq<Gap>)
    ensures inside == GapsWithin(gaps, s, scope)
  {
    inside := [];
    for i := 0 to |gaps|
      invariant inside == GapsWithin(gaps[..i], s, scope)
    {
      assert gaps[..i + 1][..i] == gaps[..i];
      var hit := false;
      for j := 0 to |s|
        invariant !hit && forall k :: 0 <= k < j ==>
                    !(Selects(scope, s[k]) && s[k].start as real <= gaps[i].second < s[k].end as real)
      {
        if Selects(scope, s[j]) && gaps[i].second >= s[j].start as real && gaps[i].second < s[j].end as real {
          hit := true;
          break;
        }
      }
      if hit {
        inside := inside + [gaps[i]];
      }
    }
    assert gaps[..|gaps|] == gaps;
  }

  // ---- conservation of life time ----

  lemma {:induction false} TimeOfSplits(life: Life, s: Stream)
    ensures TimeOf(life, s, WholeMatch) ==
              TimeOf(life, s, Within(Laning)) + TimeOf(life, s, Within(Midgame)) + TimeOf(life, s, Within(Decisive))
  {
    if s != [] {
      TimeOfSplits(life, s[..|s| - 1]);
    }
  }

  /** The three phase durations sum to the whole-match duration, for any lives. */
  lemma {:induction false} PhaseTimesSum(lives: seq<Life>, s: Stream)
    ensures Time(lives, s, WholeMatch) ==
              Time(lives, s, Within(Laning)) + Time(lives, s, Within(Midgame)) + Time(lives, s, Within(Decisive))
  {
    if lives != [] {
      PhaseTimesSum(lives[..|lives| - 1], s);
      TimeOfSplits(lives[|lives| - 1], s);
    }
  }

  /** Over a tiling, a life's time is its overlap with the tiled range. */
  lemma {:induction false} TimeOfTiling(life: Life, s: Stream, lo: int, hi: int)
    requires Tiling(s, lo, hi) && AllOfficial(s) && life.start <= life.end
    ensures TimeOf(life, s, WholeMatch) == Max(0.0, Min(life.end, hi as real) - Max(life.start, lo as real))
  {
    var n := |s| - 1;
    if n > 0 {
      TimeOfTiling(life, s[..n], lo, s[n].start);
      assert s[n - 1].end == s[n].start;
      TilingOrdered(s, lo, hi);
    } else {
      assert s[..n] == [];
    }
  }

  function TotalLength(lives: seq<Life>): real {
    if lives == [] then 0.0 else TotalLength(lives[..|lives| - 1]) + (lives[|lives| - 1].end - lives[|lives| - 1].start)
  }

  ghost predicate WithinMatch(lives: seq<Life>, eligible: int) {
    forall i :: 0 <= i < |lives| ==> 0.0 <= lives[i].start <= lives[i].end <= eligible as real
  }

  lemma {:induction false} WholeTimeIsTotal(lives: seq<Life>, s: Stream, eligible: int)
    requires Tiling(s, 0, eligible) && AllOfficial(s) && WithinMatch(lives, eligible)
    ensures Time(lives, s, WholeMatch) == TotalLength(lives)
  {
    if lives != [] {
      var n := |lives| - 1;
      WholeTimeIsTotal(lives[..n], s, eligible);
      TimeOfTiling(lives[n], s, 0, eligible);
    }
  }

  // ---- coverage ----

  /** Time all lives together spend in one interval. */
  function TimeIn(lives: seq<Life>, iv: PhaseInterval): real {
    if lives == [] then 0.0 else TimeIn(lives[..|lives| - 1], iv) + Overlap(lives[|lives| - 1], iv)
  }

  function TimeByInterval(lives: seq<Life>, s: Stream, scope: Scope): real {
    if s == [] then 0.0
    else TimeByInterval(lives, s[..|s| - 1], scope) +
           (if Selects(scope, s[|s| - 1]) then TimeIn(lives, s[|s| - 1]) else 0.0)
  }

  function PhaseDuration(s: Stream, scope: Scope): real {
    if s == [] then 0.0
    else PhaseDuration(s[..|s| - 1], scope) +
           (if Selects(scope, s[|s| - 1]) then (s[|s| - 1].end - s[|s| - 1].start) as real else 0.0)
  }

  method PhaseDurationMap(s: Stream) returns (laning: real, midgame: real, decisive: real)
    ensures laning == PhaseDuration(s, Within(Laning))
    ensures midgame == PhaseDuration(s, Within(Midgame))
    ensures decisive == PhaseDuration(s, Within(Decisive))
  {
    laning, midgame, decisive := 0.0, 0.0, 0.0;
    for i := 0 to |s|
      invariant laning == PhaseDuration(s[..i], Within(Laning))
      invariant midgame == PhaseDuration(s[..i], Within(Midgame))
      invariant decisive == PhaseDuration(s[..i], Within(Decisive))
    {
      assert s[..i + 1][..i] == s[..i];
      var width := (s[i].end - s[i].start) as real;
      match s[i].phase {
        case Laning => laning := laning + width;
        case Midgame => midgame := midgame + width;
        case Decisive => decisive := decisive + width;
        case Other(_) =>
      }
    }
    assert s[..|s|] == s;
  }

  lemma {:induction false} ByIntervalGrows(lives: seq<Life>, life: Life, s: Stream, scope: Scope)
    ensures TimeByInterval(lives + [life], s, scope) == TimeByInterval(lives, s, scope) + TimeOf(life, s, scope)
  {
    if s != [] {
      ByIntervalGrows(lives, life, s[..|s| - 1], scope);
      assert (lives + [life])[..|lives|] == lives;
    }
  }

  /** Summing by life or by interval is the same. */
  lemma {:induction false} TimeEitherWay(lives: seq<Life>, s: Stream, scope: Scope)
    ensures Time(lives, s, scope) == TimeByInterval(lives, s, scope)
  {
    if lives == [] {
      NoLivesNoTime(s, scope);
    } else {
      var n := |lives| - 1;
      TimeEitherWay(lives[..n], s, scope);
      ByIntervalGrows(lives[..n], lives[n], s, scope);
      assert lives == lives[..n] + [lives[n]];
    }
  }

  lemma {:induction false} NoLivesNoTime(s: Stream, scope: Scope)
    ensures TimeByInterval([], s, scope) == 0.0
  {
    if s != [] {
      NoLivesNoTime(s[..|s| - 1], scope);
    }
  }

  /** Disjoint lives fit an interval, with room after the last of them. */
  lemma {:induction false} LivesFit(lives: seq<Life>, iv: PhaseInterval)
    requires Disjoint(lives) && iv.start < iv.end
    ensures TimeIn(lives, iv) <= (iv.end - iv.start) as real
    ensures lives != [] ==> TimeIn(lives, iv) <= Max(0.0,
              Min(lives[|lives| - 1].end, iv.end as real) - iv.start as real)
  {
    if lives != [] {
      var n := |lives| - 1;
      LivesFit(lives[..n], iv);
      if n > 0 {
        assert lives[..n][n - 1].end <= lives[n].start;
      }
    }
  }

  /** Coverage of a scope never exceeds one. */
  lemma {:induction false} CoverageAtMostOne(lives: seq<Life>, s: Stream, scope: Scope)
    requires Disjoint(lives) && forall i :: 0 <= i < |s| ==> s[i].start < s[i].end
    ensures 0.0 <= Time(lives, s, scope) <= PhaseDuration(s, scope)
  {
    TimeEitherWay(lives, s, scope);
    ByIntervalFits(lives, s, scope);
  }

  lemma {:induction false} ByIntervalFits(lives: seq<Life>, s: Stream, scope: Scope)
    requires Disjoint(lives) && forall i :: 0 <= i < |s| ==> s[i].start < s[i].end
    ensures 0.0 <= TimeByInterval(lives, s, scope) <= PhaseDuration(s, scope)
  {
    if s != [] {
      var n := |s| - 1;
      ByIntervalFits(lives, s[..n], scope);
      LivesFit(lives, s[n]);
      TimeInNonNegative(lives, s[n]);
    }
  }

  lemma {:induction false} TimeInNonNegative(lives: seq<Life>, iv: PhaseInterval)
    ensures TimeIn(lives, iv) >= 0.0
  {
    if lives != [] {
      TimeInNonNegative(lives[..|lives| - 1], iv);
    }
  }

  /** Conservation for every event list inside the match: proven time splits exactly
      over the phases, sums to the lengths of the lives, and never overfills a phase. */
  lemma LifeTimeConserved(recorded: seq<LifeEvent>, bound: Option<string>, s: Stream, eligible: int, scope: Scope)
    requires Tiling(s, 0, eligible) && AllOfficial(s)
    requires forall e :: e in recorded ==> 0.0 <= e.second <= eligible as real
    ensures var lives := Lives(recorded, bound);
      && Time(lives, s, WholeMatch) == TotalLength(lives)
      && TotalLength(lives) == Time(lives, s, Within(Laning)) + Time(lives, s, Within(Midgame)) +
           Time(lives, s, Within(Decisive))
      && 0.0 <= Time(lives, s, scope) <= PhaseDuration(s, scope)
  {
    LivesAreProven(recorded, bound);
    var lives := Lives(recorded, bound);
    hide Lives;
    WholeTimeIsTotal(lives, s, eligible);
    PhaseTimesSum(lives, s);
    CoverageAtMostOne(lives, s, scope);
  }
}
