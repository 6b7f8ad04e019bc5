/** What every run of the engine emits: an exact tiling of the eligible time with a
    fixed label grammar, rounds counted by Decisive intervals, and one reset episode
    per Decisive-to-Midgame boundary. */
module EngineTiling {
  import opened Wrappers
  import opened Phases
  import opened EngineSpec

  // ---- the shape of a stream ----

  /** Optional Laning first, then Midgame and Decisive in alternation. */
  ghost predicate Alternates(s: Stream) {
    && (|s| > 0 ==> s[0].phase == Laning || s[0].phase == Midgame)
    && (forall i :: 0 < i < |s| ==> Follows(s[i - 1].phase, s[i].phase))
  }

  predicate Follows(before: Phase, after: Phase) {
    (before == Midgame && after == Decisive) || (before != Midgame && after == Midgame)
  }

  function DecisiveCount(s: Stream): nat {
    if s == [] then 0
    else DecisiveCount(s[..|s| - 1]) + (if s[|s| - 1].phase == Decisive then 1 else 0)
  }

  /** Each interval carries the number of Decisive intervals up to and including it. */
  ghost predicate RoundsCounted(s: Stream) {
    forall i :: 0 <= i < |s| ==> RoundCounted(s, i)
  }

  predicate RoundCounted(s: Stream, i: int)
    requires 0 <= i < |s|
  {
    s[i].roundIndex == DecisiveCount(s[..i + 1])
  }

  /** The seconds at which Decisive gives way to Midgame. */
  function ResetBoundaries(s: Stream): seq<int> {
    if |s| < 2 then []
    else
      var n := |s| - 1;
      ResetBoundaries(s[..n]) + (if s[n - 1].phase == Decisive && s[n].phase == Midgame then [s[n].start] else [])
  }

  function ResetStarts(resets: seq<ResetEpisode>): seq<int> {
    seq(|resets|, i requires 0 <= i < |resets| => resets[i].start)
  }

  ghost predicate ResetsMatch(s: Stream, resets: seq<ResetEpisode>) {
    && ResetStarts(resets) == ResetBoundaries(s)
    && (forall i :: 0 <= i < |resets| ==> resets[i].end == resets[i].start + 90)
  }

  ghost predicate Shape(s: Stream, resets: seq<ResetEpisode>, end: int) {
    Tiling(s, 0, end) && Alternates(s) && RoundsCounted(s) && ResetsMatch(s, resets)
  }

  /** The stream as it would read if the open interval were closed at `end`. */
  function Snapshot(st: State, end: int): Stream {
    Bounds(st.intervals) + [Open(st, end)]
  }

  function Open(st: State, end: int): PhaseInterval {
    PhaseInterval(st.currentStart, end, st.current, st.roundIndex, "")
  }

  lemma RoundsExtend(s: Stream, iv: PhaseInterval)
    requires RoundsCounted(s) && |s| > 0
    requires iv.roundIndex == s[|s| - 1].roundIndex + (if iv.phase == Decisive then 1 else 0)
    ensures RoundsCounted(s + [iv])
  {
    var t := s + [iv];
    forall i | 0 <= i < |t| ensures RoundCounted(t, i) {
      if i < |s| {
        assert t[..i + 1] == s[..i + 1] && RoundCounted(s, i);
      } else {
        assert t[..i + 1] == t && t[..i] == s && s[..i] == s && RoundCounted(s, i - 1);
      }
    }
  }

  lemma ResetsExtend(s: Stream, resets: seq<ResetEpisode>, iv: PhaseInterval, evidence: seq<int>)
    requires ResetsMatch(s, resets) && |s| > 0
    ensures var isReset := s[|s| - 1].phase == Decisive && iv.phase == Midgame;
      ResetsMatch(s + [iv], if isReset then resets + [ResetEpisode(iv.start, iv.start + 90, evidence)] else resets)
  {
    var t := s + [iv];
    assert t[..|s|] == s;
    var isReset := s[|s| - 1].phase == Decisive && iv.phase == Midgame;
    var resets' := if isReset then resets + [ResetEpisode(iv.start, iv.start + 90, evidence)] else resets;
    assert ResetStarts(resets') == ResetStarts(resets) + (if isReset then [iv.start] else []);
  }

  lemma ShapeExtend(s: Stream, resets: seq<ResetEpisode>, mid: int, iv: PhaseInterval, evidence: seq<int>)
    requires Shape(s, resets, mid)
    requires iv.start == mid < iv.end && Follows(s[|s| - 1].phase, iv.phase)
    requires iv.roundIndex == s[|s| - 1].roundIndex + (if iv.phase == Decisive then 1 else 0)
    ensures Shape(s + [iv], if s[|s| - 1].phase == Decisive then resets + [ResetEpisode(mid, mid + 90, evidence)]
              else resets, iv.end)
  {
    RoundsExtend(s, iv);
    ResetsExtend(s, resets, iv, evidence);
    hide RoundsCounted;
    hide ResetsMatch;
  }

  /** Moving the end of the last interval changes nothing else. */
  lemma ShapeReend(s: Stream, resets: seq<ResetEpisode>, end: int, end': int)
    requires Shape(s, resets, end) && end' > s[|s| - 1].start
    ensures var n := |s| - 1; Shape(s[..n] + [s[n].(end := end')], resets, end')
  {
    var n := |s| - 1;
    var t := s[..n] + [s[n].(end := end')];
    assert t[..n] == s[..n];
    forall i | 0 <= i < |t| ensures RoundCounted(t, i) {
      assert RoundCounted(s, i);
      if i < n {
        assert t[..i + 1] == s[..i + 1];
      } else {
        assert t[..i + 1] == t && s[..i + 1] == s;
      }
    }
    if n > 0 {
      assert t[n - 1] == s[n - 1];
    }
  }

  // ---- the invariant of a run ----

  ghost predicate OpenInvariant(st: State) {
    && !st.ended
    && Shape(Snapshot(st, st.currentStart + 1), st.resets, st.currentStart + 1)
    && -1 <= st.lastSecond
    && (st.currentStart < st.lastSecond ||
         (st.currentStart == 0 && st.intervals == [] && (st.lastSecond <= 0 ==> st.current == Laning)))
    && (st.ancient.Some? ==> st.ancient.value == st.lastSecond && st.lastSecond >= 0)
  }

  ghost predicate EndedInvariant(st: State) {
    st.ended && st.ancient.Some? && st.ancient.value >= 0 &&
        Shape(Bounds(st.intervals), st.resets, st.ancient.value + 1)
  }

  ghost predicate Invariant(st: State) {
    if st.ended then EndedInvariant(st) else OpenInvariant(st)
  }

  lemma BoundsAppend(intervals: seq<Interval>, x: Interval)
    ensures Bounds(intervals + [x]) == Bounds(intervals) + [x.bounds]
  {
  }

  lemma OpenShape(st: State, end: int)
    requires OpenInvariant(st) && end > st.currentStart
    ensures Shape(Snapshot(st, end), st.resets, end)
  {
    hide Shape;
    var s := Snapshot(st, st.currentStart + 1);
    ShapeReend(s, st.resets, st.currentStart + 1, end);
    assert s[..|s| - 1] == Bounds(st.intervals);
  }

  lemma CloseGivesSnapshot(st: State, end: int, next: Phase)
    requires end > st.currentStart
    ensures Bounds(CloseInterval(st, end, next).intervals) == Snapshot(st, end)
  {
    BoundsAppend(st.intervals, Interval(Open(st, end), st.pending));
  }

  lemma ShapeSingle(iv: PhaseInterval)
    requires iv.start == 0 < iv.end && iv.roundIndex == 0 && (iv.phase == Laning || iv.phase == Midgame)
    ensures Shape([iv], [], iv.end)
  {
    assert [iv][..1] == [iv] && [iv][..0] == [];
    assert RoundCounted([iv], 0);
  }

  lemma TransitionKeepsShape(st: State, s: int, to: Phase)
    requires OpenInvariant(st) && s == st.lastSecond >= 0
    requires Follows(st.current, to) && to != st.current
    ensures var st' := Transition(st, s, to);
      Shape(Snapshot(st', s + 1), st'.resets, s + 1) && st'.currentStart == s
  {
    hide Shape;
    var st' := Transition(st, s, to);
    if s > st.currentStart {
      OpenShape(st, s);
      CloseGivesSnapshot(st, s, to);
      ShapeExtend(Snapshot(st, s), st.resets, s, Open(st', s + 1), st.pending);
    } else {
      OpenStart(st);
      ShapeSingle(Open(st', 1));
      assert Snapshot(st', 1) == [Open(st', 1)];
    }
  }

  lemma OpenStart(st: State)
    requires OpenInvariant(st) && st.intervals == []
    ensures st.resets == [] && (st.current != Decisive ==> st.roundIndex == 0)
  {
    hide Tiling;
    var s := Snapshot(st, st.currentStart + 1);
    assert s == [Open(st, st.currentStart + 1)];
    assert RoundCounted(s, 0) && s[..1] == s && s[..0] == [];
    assert DecisiveCount(s) == DecisiveCount(s[..0]) + (if s[0].phase == Decisive then 1 else 0);
    assert |ResetStarts(st.resets)| == 0;
  }

  lemma DecideFollows(log: Log, current: Phase, s: int)
    ensures var d := Decide(log, current, s); d.Some? ==> Follows(current, d.value) && d.value != current
  {
  }

  /** Finalizing the last fed second, then moving on to a later one. */
  lemma FinalizeKeepsInvariant(st: State, next: int)
    requires OpenInvariant(st) && next > st.lastSecond
    ensures Invariant(FinalizeSecond(st, st.lastSecond).(lastSecond := next))
  {
    hide Shape;
    var s := st.lastSecond;
    var st' := FinalizeSecond(st, s);
    if s < 0 {
    } else if st.ancient.Some? && st.ancient.value <= s {
      OpenShape(st, s + 1);
      CloseGivesSnapshot(st, s + 1, ENDED);
    } else {
      DecideFollows(st.log, st.current, s);
      var d := Decide(st.log, st.current, s);
      if d.Some? {
        TransitionKeepsShape(st, s, d.value);
      }
    }
  }

  lemma RecordKeepsInvariant(st: State, x: Input)
    requires Invariant(st) && x.second >= 0 && (!st.ended ==> x.second == st.lastSecond)
    ensures Invariant(Record(st, x))
  {
    hide Shape;
    var st' := Record(st, x);
    if !st.ended {
      assert Snapshot(st', st'.currentStart + 1) == Snapshot(st, st.currentStart + 1);
    }
  }

  lemma FeedKeepsInvariant(st: State, gameEnd: int, x: Input)
    requires Invariant(st) && (!st.ended ==> x.second >= st.lastSecond || x.second < 0)
    ensures Invariant(FeedStep(st, gameEnd, x))
    ensures var st' := FeedStep(st, gameEnd, x);
      st'.lastSecond == if x.second < 0 || st.ended then st.lastSecond else x.second
  {
    hide Shape;
    if x.second >= 0 && !st.ended {
      var advanced := st;
      if x.second > st.lastSecond {
        FinalizeKeepsInvariant(st, x.second);
        advanced := FinalizeSecond(st, st.lastSecond).(lastSecond := x.second);
      }
      if x.second <= gameEnd {
        RecordKeepsInvariant(advanced, x);
      }
    }
  }

  /** No input still to come precedes the last fed second. */
  ghost predicate Continues(st: State, inputs: seq<Input>) {
    NonDecreasing(inputs) && (!st.ended ==> forall i :: 0 <= i < |inputs| ==>
        inputs[i].second >= st.lastSecond || inputs[i].second < 0)
  }

  lemma {:induction false} RunKeepsInvariant(st: State, gameEnd: int, inputs: seq<Input>)
    requires Invariant(st) && Continues(st, inputs)
    ensures Invariant(Run(st, gameEnd, inputs))
    decreases |inputs|
  {
    if inputs != [] {
      FeedKeepsInvariant(st, gameEnd, inputs[0]);
      RunKeepsInvariant(FeedStep(st, gameEnd, inputs[0]), gameEnd, inputs[1..]);
    }
  }

  lemma InitialInvariant()
    ensures OpenInvariant(INITIAL)
  {
    ShapeSingle(Open(INITIAL, 1));
    assert Snapshot(INITIAL, 1) == [Open(INITIAL, 1)];
    hide Shape;
  }

  lemma RunInvariant(gameEnd: int, inputs: seq<Input>)
    requires NonDecreasing(inputs)
    ensures Invariant(Run(INITIAL, gameEnd, inputs))
  {
    InitialInvariant();
    RunKeepsInvariant(INITIAL, gameEnd, inputs);
  }

  // ---- the end of a run ----

  /** The state End leaves, once the last fed second has been finalized. */
  lemma EndIsSettled(st: State, gameEnd: int)
    requires Invariant(st)
    requires st.ancient.Some? ==> st.ancient.value <= gameEnd
    ensures var settled := FinalizeSecond(st, st.lastSecond);
      && EndStep(st, gameEnd) == EndAtClock(settled, gameEnd).(lastSecond := EndStep(st, gameEnd).lastSecond)
      && settled.ancient == st.ancient && settled.log == st.log
      && (st.ancient.Some? ==> settled.ended && EndedInvariant(settled))
      && (st.ancient.None? ==> !settled.ended && OpenInvariant(settled.(lastSecond := st.lastSecond + 1)))
  {
    hide Shape;
    if !st.ended {
      FinalizeKeepsInvariant(st, st.lastSecond + 1);
    }
  }

  /** An ancient is only ever recorded within game time. */
  lemma {:induction false} AncientInTime(st: State, gameEnd: int, inputs: seq<Input>)
    requires st.ancient.Some? ==> st.ancient.value <= gameEnd
    ensures var st' := Run(st, gameEnd, inputs); st'.ancient.Some? ==> st'.ancient.value <= gameEnd
    decreases |inputs|
  {
    if inputs != [] {
      AncientInTime(FeedStep(st, gameEnd, inputs[0]), gameEnd, inputs[1..]);
    }
  }

  // ---- overrun ----

  /** A transition fires at a fed second that lies past the end of eligible time. */
  ghost predicate FiresPast(st: State, limit: int) {
    !st.ended && st.ancient.None? && st.lastSecond > limit && Decide(st.log, st.current, st.lastSecond).Some?
  }

  /** Somewhere in the run a guard holds at a fed second later than `limit`. */
  ghost predicate Overruns(gameEnd: int, inputs: seq<Input>, limit: int) {
    exists k :: 0 <= k <= |inputs| && FiresPast(Run(INITIAL, gameEnd, inputs[..k]), limit)
  }

  /** Inputs after the game end are harmless once the ancient has fallen in time. */
  ghost predicate WellTimed(gameEnd: int, inputs: seq<Input>) {
    forall k :: 0 <= k < |inputs| && inputs[k].second > gameEnd ==>
      exists j :: 0 <= j < k && inputs[j].kind == AncientDeath && 0 <= inputs[j].second <= gameEnd
  }

  lemma {:induction false} AncientIsNoticed(st: State, gameEnd: int, inputs: seq<Input>, j: nat)
    requires Invariant(st) && Continues(st, inputs)
    requires j < |inputs| && inputs[j].kind == AncientDeath && 0 <= inputs[j].second <= gameEnd
    ensures var st' := Run(st, gameEnd, inputs); st'.ended || st'.ancient.Some?
    decreases |inputs|
  {
    hide Invariant;
    FeedKeepsInvariant(st, gameEnd, inputs[0]);
    var st1 := FeedStep(st, gameEnd, inputs[0]);
    if j > 0 {
      AncientIsNoticed(st1, gameEnd, inputs[1..], j - 1);
    } else {
      AncientIsKept(st1, gameEnd, inputs[1..]);
    }
  }

  lemma {:induction false} AncientIsKept(st: State, gameEnd: int, inputs: seq<Input>)
    requires st.ended || st.ancient.Some?
    ensures var st' := Run(st, gameEnd, inputs); st'.ended || st'.ancient.Some?
    decreases |inputs|
  {
    if inputs != [] {
      AncientIsKept(FeedStep(st, gameEnd, inputs[0]), gameEnd, inputs[1..]);
    }
  }

  /** A run never gets ahead of its inputs. */
  lemma {:induction false} RunBounded(st: State, gameEnd: int, inputs: seq<Input>, bound: int)
    requires st.lastSecond <= bound
    requires forall i :: 0 <= i < |inputs| ==> inputs[i].second <= bound
    ensures Run(st, gameEnd, inputs).lastSecond <= bound
    decreases |inputs|
  {
    if inputs != [] {
      RunBounded(FeedStep(st, gameEnd, inputs[0]), gameEnd, inputs[1..], bound);
    }
  }

  lemma {:induction false} LastSecondIsFed(st: State, gameEnd: int, inputs: seq<Input>)
    ensures var last := Run(st, gameEnd, inputs).lastSecond;
      last == st.lastSecond || exists j :: 0 <= j < |inputs| && inputs[j].second == last
    decreases |inputs|
  {
    if inputs != [] {
      var st1 := FeedStep(st, gameEnd, inputs[0]);
      LastSecondIsFed(st1, gameEnd, inputs[1..]);
      var last := Run(st, gameEnd, inputs).lastSecond;
      if last != st1.lastSecond {
        var j :| 0 <= j < |inputs[1..]| && inputs[1..][j].second == last;
        assert inputs[j + 1].second == last;
      }
    }
  }

  // ---- the main results ----

  /** A legal run: the game has an end, and inputs come in order of time. */
  ghost predicate LegalRun(gameEnd: int, inputs: seq<Input>) {
    gameEnd >= 0 && NonDecreasing(inputs)
  }

  ghost predicate ExactOutput(out: Output) {
    Shape(Bounds(out.intervals), out.resets, out.eligibleSeconds)
  }

  /** A run in which nothing fires after the game end emits an exact official stream. */
  lemma ExactTiling(gameEnd: int, inputs: seq<Input>)
    requires LegalRun(gameEnd, inputs) && !Overruns(gameEnd, inputs, gameEnd)
    ensures var out := Replay(gameEnd, inputs); ExactOutput(out) && 0 < out.eligibleSeconds <= gameEnd + 1
  {
    hide Shape;
    var st := Run(INITIAL, gameEnd, inputs);
    RunInvariant(gameEnd, inputs);
    AncientInTime(INITIAL, gameEnd, inputs);
    EndIsSettled(st, gameEnd);
    if st.ancient.None? {
      var settled := FinalizeSecond(st, st.lastSecond);
      NoOverrunStart(gameEnd, inputs);
      OpenShape(settled.(lastSecond := st.lastSecond + 1), gameEnd + 1);
      CloseGivesSnapshot(settled, gameEnd + 1, ENDED);
    }
  }

  /** Where the last transition of a run lies. */
  lemma {:induction false} StartFiresPast(st: State, gameEnd: int, inputs: seq<Input>, limit: int) returns (k: nat)
    requires Invariant(st) && Continues(st, inputs) && limit >= 0
    requires !st.ended && st.ancient.None? ==> st.currentStart <= limit
    requires var last := Run(st, gameEnd, inputs); !last.ended && last.ancient.None? && last.currentStart > limit
    ensures k < |inputs| && FiresPast(Run(st, gameEnd, inputs[..k]), limit)
    decreases |inputs|
  {
    hide Shape;
    if st.ended || st.ancient.Some? {
      AncientIsKept(st, gameEnd, inputs);
      assert false;
    } else {
      var st1 := FeedStep(st, gameEnd, inputs[0]);
      FeedKeepsInvariant(st, gameEnd, inputs[0]);
      if !st1.ended && st1.ancient.None? && st1.currentStart > limit {
        k := 0;
        assert inputs[..0] == [];
      } else {
        k := StartFiresPast(st1, gameEnd, inputs[1..], limit);
        assert inputs[..k + 1][0] == inputs[0] && inputs[..k + 1][1..] == inputs[1..][..k];
        k := k + 1;
      }
    }
  }

  lemma NoOverrunStart(gameEnd: int, inputs: seq<Input>)
    requires LegalRun(gameEnd, inputs)
    requires var st := Run(INITIAL, gameEnd, inputs); !st.ended && st.ancient.None?
    ensures forall limit :: limit >= 0 && !Overruns(gameEnd, inputs, limit) ==>
      FinalizeSecond(Run(INITIAL, gameEnd, inputs), Run(INITIAL, gameEnd, inputs).lastSecond).currentStart <= limit
  {
    hide Shape;
    var st := Run(INITIAL, gameEnd, inputs);
    forall limit | limit >= 0 && !Overruns(gameEnd, inputs, limit)
      ensures FinalizeSecond(st, st.lastSecond).currentStart <= limit
    {
      InitialInvariant();
      if st.currentStart > limit {
        var k := StartFiresPast(INITIAL, gameEnd, inputs, limit);
      } else {
        assert inputs[..|inputs|] == inputs;
        assert !FiresPast(st, limit);
      }
    }
  }

  /** Inputs past the game end do no harm when the ancient fell in time. */
  lemma WellTimedNeverOverruns(gameEnd: int, inputs: seq<Input>)
    requires LegalRun(gameEnd, inputs) && WellTimed(gameEnd, inputs)
    ensures !Overruns(gameEnd, inputs, gameEnd)
  {
    hide Shape;
    forall k | 0 <= k <= |inputs|
      ensures !FiresPast(Run(INITIAL, gameEnd, inputs[..k]), gameEnd)
    {
      var some := inputs[..k];
      var st := Run(INITIAL, gameEnd, some);
      LastSecondIsFed(INITIAL, gameEnd, some);
      if st.lastSecond > gameEnd {
        var j :| 0 <= j < |some| && some[j].second == st.lastSecond;
        assert inputs[j].second > gameEnd;
        var i :| 0 <= i < j && inputs[i].kind == AncientDeath && 0 <= inputs[i].second <= gameEnd;
        InitialInvariant();
        assert some[i] == inputs[i];
        AncientIsNoticed(INITIAL, gameEnd, some, i);
      }
    }
  }

  /** Once a guard holds past the end, the run closes an interval past the end. */
  lemma {:induction false} FiringIsTaken(st: State, gameEnd: int, inputs: seq<Input>, limit: int)
    requires Invariant(st) && Continues(st, inputs) && limit >= gameEnd >= 0
    requires FiresPast(st, limit)
    ensures var last := Run(st, gameEnd, inputs);
      !last.ended && last.ancient.None? && FinalizeSecond(last, last.lastSecond).currentStart > limit
    decreases |inputs|
  {
    hide Shape;
    if inputs != [] {
      var x := inputs[0];
      var st1 := FeedStep(st, gameEnd, x);
      FeedKeepsInvariant(st, gameEnd, x);
      if x.second <= st.lastSecond {
        assert st1 == st;
        FiringIsTaken(st, gameEnd, inputs[1..], limit);
      } else {
        assert st1.currentStart > limit && !st1.ended && st1.ancient.None?;
        StaysPast(st1, gameEnd, inputs[1..], limit);
      }
    }
  }

  lemma {:induction false} StaysPast(st: State, gameEnd: int, inputs: seq<Input>, limit: int)
    requires Invariant(st) && Continues(st, inputs) && limit >= gameEnd >= 0
    requires !st.ended && st.ancient.None? && st.currentStart > limit
    ensures var last := Run(st, gameEnd, inputs);
      !last.ended && last.ancient.None? && FinalizeSecond(last, last.lastSecond).currentStart > limit
    decreases |inputs|
  {
    hide Shape;
    if inputs != [] {
      FeedKeepsInvariant(st, gameEnd, inputs[0]);
      StaysPast(FeedStep(st, gameEnd, inputs[0]), gameEnd, inputs[1..], limit);
    }
  }

  lemma ClosedPartTiles(st: State)
    requires OpenInvariant(st) && st.currentStart > 0
    ensures Tiling(Bounds(st.intervals), 0, st.currentStart)
  {
    var s := Snapshot(st, st.currentStart + 1);
    assert forall i :: 0 <= i < |st.intervals| ==> s[i] == Bounds(st.intervals)[i];
    assert s[|st.intervals|] == Open(st, st.currentStart + 1);
  }

  lemma OverrunClosesPast(gameEnd: int, inputs: seq<Input>, limit: int)
    requires LegalRun(gameEnd, inputs) && limit >= gameEnd && Overruns(gameEnd, inputs, limit)
    ensures var st := Run(INITIAL, gameEnd, inputs);
      st.ancient.None? && !st.ended && FinalizeSecond(st, st.lastSecond).currentStart > limit
  {
    hide Shape;
    var k :| 0 <= k <= |inputs| && FiresPast(Run(INITIAL, gameEnd, inputs[..k]), limit);
    var mid := Run(INITIAL, gameEnd, inputs[..k]);
    RunInvariant(gameEnd, inputs[..k]);
    RestContinues(gameEnd, inputs, k);
    FiringIsTaken(mid, gameEnd, inputs[k..], limit);
  }

  lemma ClockEndTiles(st: State, gameEnd: int)
    requires OpenInvariant(st) && gameEnd >= 0
    ensures Tiling(Bounds(EndAtClock(st, gameEnd).intervals), 0, gameEnd + 1) <==> st.currentStart <= gameEnd + 1
  {
    if st.currentStart <= gameEnd {
      OpenShape(st, gameEnd + 1);
      CloseGivesSnapshot(st, gameEnd + 1, ENDED);
    } else {
      ClosedPartTiles(st);
    }
  }

  /** The exact condition: an ordered run tiles its eligible time just when no guard
      holds at a fed second later than the one following the game end. */
  lemma TilesExactlyWhen(gameEnd: int, inputs: seq<Input>)
    requires LegalRun(gameEnd, inputs)
    ensures var out := Replay(gameEnd, inputs);
      Tiling(Bounds(out.intervals), 0, out.eligibleSeconds) <==> !Overruns(gameEnd, inputs, gameEnd + 1)
  {
    hide Shape;
    hide Tiling;
    var st := Run(INITIAL, gameEnd, inputs);
    RunInvariant(gameEnd, inputs);
    AncientInTime(INITIAL, gameEnd, inputs);
    EndIsSettled(st, gameEnd);
    if Overruns(gameEnd, inputs, gameEnd + 1) {
      OverrunClosesPast(gameEnd, inputs, gameEnd + 1);
    }
    if st.ancient.Some? {
      var last := FinalState(gameEnd, inputs);
      ShapeTiles(Bounds(last.intervals), last.resets, last.ancient.value + 1);
    } else {
      NoOverrunStart(gameEnd, inputs);
      ClockEndTiles(FinalizeSecond(st, st.lastSecond).(lastSecond := st.lastSecond + 1), gameEnd);
    }
  }

  // ---- the reset just past the end ----

  /** A reset guard holds at the fed second `at`. */
  ghost predicate FiresReset(st: State, at: int) {
    !st.ended && st.ancient.None? && st.lastSecond == at && st.current == Decisive && Quiet(st.log, at)
  }

  /** Somewhere in the run a reset guard holds at a fed second `at`. */
  ghost predicate ResetsAt(gameEnd: int, inputs: seq<Input>, at: int) {
    exists k :: 0 <= k <= |inputs| && FiresReset(Run(INITIAL, gameEnd, inputs[..k]), at)
  }

  /** The open interval began with a reset at `at`. */
  predicate JustReset(st: State, at: int) {
    && !st.ended && st.ancient.None? && st.currentStart == at && st.current == Midgame
    && st.intervals != [] && st.intervals[|st.intervals| - 1].bounds.phase == Decisive
  }

  lemma {:induction false} StaysReset(st: State, gameEnd: int, inputs: seq<Input>, at: int)
    requires Invariant(st) && Continues(st, inputs) && at > gameEnd >= 0
    requires !st.ended && st.ancient.None? && (st.currentStart > at || JustReset(st, at))
    ensures var last := Run(st, gameEnd, inputs);
      var fin := FinalizeSecond(last, last.lastSecond);
      !last.ended && last.ancient.None? && (fin.currentStart > at || JustReset(fin, at))
    decreases |inputs|
  {
    hide Shape, Decide;
    if inputs != [] {
      FeedKeepsInvariant(st, gameEnd, inputs[0]);
      StaysReset(FeedStep(st, gameEnd, inputs[0]), gameEnd, inputs[1..], at);
    }
  }

  /** A reset guard that holds past the end is taken; a later guard may hide it. */
  lemma {:induction false} ResetIsTaken(st: State, gameEnd: int, inputs: seq<Input>, at: int)
    requires Invariant(st) && Continues(st, inputs) && at > gameEnd >= 0 && FiresReset(st, at)
    ensures var last := Run(st, gameEnd, inputs);
      var fin := FinalizeSecond(last, last.lastSecond);
      !last.ended && last.ancient.None? && (fin.currentStart > at || JustReset(fin, at))
    decreases |inputs|
  {
    hide Shape;
    ResetMoves(st, at);
    if inputs != [] {
      var x := inputs[0];
      FeedKeepsInvariant(st, gameEnd, x);
      hide FinalizeSecond;
      if x.second <= st.lastSecond {
        assert FeedStep(st, gameEnd, x) == st;
        ResetIsTaken(st, gameEnd, inputs[1..], at);
      } else {
        StaysReset(FeedStep(st, gameEnd, x), gameEnd, inputs[1..], at);
      }
    }
  }

  lemma ResetMoves(st: State, at: int)
    requires OpenInvariant(st) && at > 0 && FiresReset(st, at)
    ensures JustReset(FinalizeSecond(st, at), at)
  {
    hide Shape;
  }

  /** Only a reset guard leaves a state just reset. */
  lemma MovesByReset(st: State, at: int)
    requires OpenInvariant(st) && at > 0 && !JustReset(st, at) && JustReset(FinalizeSecond(st, st.lastSecond), at)
    ensures FiresReset(st, at)
  {
    hide Shape, EntersMidgame, EntersDecisive, Quiet;
  }

  lemma {:induction false} ResetWasFired(st: State, gameEnd: int, inputs: seq<Input>, at: int) returns (k: nat)
    requires Invariant(st) && Continues(st, inputs) && at > 0 && !JustReset(st, at)
    requires var last := Run(st, gameEnd, inputs); JustReset(FinalizeSecond(last, last.lastSecond), at)
    ensures k <= |inputs| && FiresReset(Run(st, gameEnd, inputs[..k]), at)
    decreases |inputs|
  {
    hide Shape;
    assert inputs[..0] == [];
    k := 0;
    if inputs == [] {
      OpenUnlessEnded(st, at);
      MovesByReset(st, at);
    } else {
      var x := inputs[0];
      FeedKeepsInvariant(st, gameEnd, x);
      var st1 := FeedStep(st, gameEnd, x);
      if JustReset(st1, at) {
        FedByReset(st, gameEnd, x, at);
      } else {
        k := ResetWasFired(st1, gameEnd, inputs[1..], at);
        assert inputs[..k + 1][0] == x && inputs[..k + 1][1..] == inputs[1..][..k];
        k := k + 1;
      }
    }
  }

  lemma OpenUnlessEnded(st: State, at: int)
    requires Invariant(st) && JustReset(FinalizeSecond(st, st.lastSecond), at)
    ensures OpenInvariant(st)
  {
    hide OpenInvariant, EndedInvariant, Decide;
  }

  lemma FedByReset(st: State, gameEnd: int, x: Input, at: int)
    requires Invariant(st) && at > 0 && !JustReset(st, at) && JustReset(FeedStep(st, gameEnd, x), at)
    ensures FiresReset(st, at)
  {
    hide Shape, Decide;
    assert !st.ended && x.second > st.lastSecond && JustReset(FinalizeSecond(st, st.lastSecond), at);
    MovesByReset(st, at);
  }

  /** Without the open interval the shape remains, but for a reset that opened it. */
  lemma ClosedPartShape(st: State)
    requires OpenInvariant(st) && st.currentStart > 0 && st.intervals != []
    ensures Shape(Bounds(st.intervals), st.resets, st.currentStart) <==>
      !(st.current == Midgame && st.intervals[|st.intervals| - 1].bounds.phase == Decisive)
  {
    ClosedPartTiles(st);
    var s, b := Snapshot(st, st.currentStart + 1), Bounds(st.intervals);
    var n := |b|;
    assert s[..n] == b && forall i :: 0 <= i < n ==> s[i] == b[i];
    hide Tiling;
    assert Alternates(b) by {
      forall i | 0 < i < n ensures Follows(b[i - 1].phase, b[i].phase) { assert Follows(s[i - 1].phase, s[i].phase); }
    }
    forall i | 0 <= i < n ensures RoundCounted(b, i) {
      assert RoundCounted(s, i) && s[..i + 1] == b[..i + 1];
    }
    assert ResetBoundaries(s) == ResetBoundaries(b) +
             (if b[n - 1].phase == Decisive && st.current == Midgame then [st.currentStart] else []);
  }

  lemma ClockEndShape(st: State, gameEnd: int)
    requires OpenInvariant(st) && gameEnd >= 0
    requires st.ancient.None?
    ensures Shape(Bounds(EndAtClock(st, gameEnd).intervals), EndAtClock(st, gameEnd).resets, gameEnd + 1) <==>
      st.currentStart <= gameEnd + 1 && !JustReset(st, gameEnd + 1)
  {
    if st.currentStart <= gameEnd {
      OpenShape(st, gameEnd + 1);
      CloseGivesSnapshot(st, gameEnd + 1, ENDED);
    } else {
      ClosedPartTiles(st);
      assert st.intervals != [] by { StartedLater(st); }
      ClosedPartShape(st);
      hide Alternates, RoundsCounted, ResetsMatch;
    }
  }

  lemma StartedLater(st: State)
    requires OpenInvariant(st) && st.currentStart > 0
    ensures st.intervals != []
  {
    var s := Snapshot(st, st.currentStart + 1);
    assert s[|st.intervals|] == Open(st, st.currentStart + 1);
  }

  lemma ResetClosesPast(gameEnd: int, inputs: seq<Input>)
    requires LegalRun(gameEnd, inputs) && ResetsAt(gameEnd, inputs, gameEnd + 1)
    ensures var st := Run(INITIAL, gameEnd, inputs);
      var fin := FinalizeSecond(st, st.lastSecond);
      st.ancient.None? && !st.ended && (fin.currentStart > gameEnd + 1 || JustReset(fin, gameEnd + 1))
  {
    hide Shape;
    var k :| 0 <= k <= |inputs| && FiresReset(Run(INITIAL, gameEnd, inputs[..k]), gameEnd + 1);
    RestContinues(gameEnd, inputs, k);
    RunInvariant(gameEnd, inputs[..k]);
    ResetIsTaken(Run(INITIAL, gameEnd, inputs[..k]), gameEnd, inputs[k..], gameEnd + 1);
  }

  lemma RestContinues(gameEnd: int, inputs: seq<Input>, k: nat)
    requires NonDecreasing(inputs) && k <= |inputs|
    ensures Run(INITIAL, gameEnd, inputs) == Run(Run(INITIAL, gameEnd, inputs[..k]), gameEnd, inputs[k..])
    ensures Continues(Run(INITIAL, gameEnd, inputs[..k]), inputs[k..])
  {
    var mid := Run(INITIAL, gameEnd, inputs[..k]);
    RunSplit(INITIAL, gameEnd, inputs[..k], inputs[k..]);
    assert inputs[..k] + inputs[k..] == inputs;
    forall i | 0 <= i < |inputs[k..]| ensures inputs[k..][i].second >= mid.lastSecond || inputs[k..][i].second < 0 {
      if inputs[k + i].second >= 0 {
        RunBounded(INITIAL, gameEnd, inputs[..k], inputs[k + i].second);
      }
    }
  }

  /** The exact condition for the whole output: an ordered run emits an exact stream with
      matching resets just when no guard holds at a fed second later than the one after the
      game end, and no reset guard holds at that one. */
  lemma ExactWhen(gameEnd: int, inputs: seq<Input>)
    requires LegalRun(gameEnd, inputs)
    ensures ExactOutput(Replay(gameEnd, inputs)) <==>
              !Overruns(gameEnd, inputs, gameEnd + 1) && !ResetsAt(gameEnd, inputs, gameEnd + 1)
  {
    hide Shape, FiresPast, FiresReset, FinalizeSecond, Run;
    var st := Run(INITIAL, gameEnd, inputs);
    RunInvariant(gameEnd, inputs);
    AncientInTime(INITIAL, gameEnd, inputs);
    EndIsSettled(st, gameEnd);
    if Overruns(gameEnd, inputs, gameEnd + 1) { OverrunClosesPast(gameEnd, inputs, gameEnd + 1); }
    if ResetsAt(gameEnd, inputs, gameEnd + 1) { ResetClosesPast(gameEnd, inputs); }
    if st.ancient.None? {
      var fin := FinalizeSecond(st, st.lastSecond);
      NoOverrunStart(gameEnd, inputs);
      ClockEndShape(fin.(lastSecond := st.lastSecond + 1), gameEnd);
      if JustReset(fin, gameEnd + 1) { ResetFires(gameEnd, inputs); }
    }
  }

  lemma ResetFires(gameEnd: int, inputs: seq<Input>)
    requires LegalRun(gameEnd, inputs)
    requires var st := Run(INITIAL, gameEnd, inputs); JustReset(FinalizeSecond(st, st.lastSecond), gameEnd + 1)
    ensures ResetsAt(gameEnd, inputs, gameEnd + 1)
  {
    hide Shape, FiresReset, FinalizeSecond, Run;
    InitialInvariant();
    var k := ResetWasFired(INITIAL, gameEnd, inputs, gameEnd + 1);
  }

  lemma ShapeTiles(s: Stream, resets: seq<ResetEpisode>, end: int)
    requires Shape(s, resets, end)
    ensures Tiling(s, 0, end)
  {
  }

  /** A tower falls, two heroes buy back, and much later somebody is seen. */
  function LateSample(): seq<Input> {
    [Input(1, 1, TowerDeath, "t"), Input(5, 2, HeroBuyback, "a"), Input(5, 3, HeroBuyback, "b"),
        Input(50, 4, HeroPosition, "a")]
  }

  /** With the end anywhere before the sample, the run stands in Decisive at second 50,
      quiet for long enough to reset. */
  lemma LateSampleRun(gameEnd: int)
    requires 5 <= gameEnd < 50
    ensures LegalRun(gameEnd, LateSample())
    ensures var st := Run(INITIAL, gameEnd, LateSample());
      !st.ended && st.ancient.None? && st.lastSecond == 50 && st.current == Decisive && Quiet(st.log, 50)
  {
    var t, b0, b1, p := Input(1, 1, TowerDeath, "t"), Input(5, 2, HeroBuyback, "a"), Input(5, 3, HeroBuyback, "b"),
          Input(50, 4, HeroPosition, "a");
    var s1 := State([t], None, Laning, 0, 0, 1, [], [], [1], false);
    var s3 := State(
      [t, b0, b1], None, Midgame, 1, 0, 5, [Interval(PhaseInterval(0, 1, Laning, 0, ""), [1])], [], [2, 3], false);
    WitnessWindows(t, b0, b1);
    FirstStep(gameEnd, t);
    MidgameStep(gameEnd, s1, b0);
    hide EntersMidgame, EntersDecisive, Quiet, FinalizeSecond;
    assert [t] + [b0] == [t, b0] && [t, b0] + [b1] == [t, b0, b1];
    assert FeedStep(s3.(log := [t, b0], pending := [2]), gameEnd, b1) == s3;
    hide FeedStep;
    LateStep(gameEnd, s3, p);
    FourSteps(gameEnd, t, b0, b1, p);
    hide Run;
    LateSampleIsLegal(gameEnd);
  }

  lemma LateSampleIsLegal(gameEnd: int)
    requires gameEnd >= 0
    ensures LegalRun(gameEnd, LateSample())
  {
    hide Run;
  }

  lemma FirstStep(gameEnd: int, x: Input)
    requires x.kind == TowerDeath && 1 == x.second <= gameEnd
    ensures FeedStep(INITIAL, gameEnd, x) == State([x], None, Laning, 0, 0, 1, [], [], [x.seqNo], false)
  {
  }

  lemma MidgameStep(gameEnd: int, st: State, x: Input)
    requires st == State(st.log, None, Laning, 0, 0, 1, [], [], st.pending, false) && EntersMidgame(st.log, 1)
    requires x.kind == HeroBuyback && 1 < x.second <= gameEnd
    ensures FeedStep(st, gameEnd, x) ==
      State(st.log + [x], None, Midgame, 1, 0, x.second, [Interval(PhaseInterval(0, 1, Laning, 0, ""), st.pending)], [],
            [x.seqNo], false)
  {
    hide EntersMidgame;
  }

  /** The first input after the end settles the second before it and is not kept. */
  lemma LateStep(gameEnd: int, st: State, x: Input)
    requires !st.ended && st.ancient.None? && st.current == Midgame && st.lastSecond >= 0
    requires x.second > gameEnd && x.second > st.lastSecond && EntersDecisive(st.log, st.lastSecond)
    ensures var st' := FeedStep(st, gameEnd, x);
      && st'.log == st.log && st'.current == Decisive && st'.lastSecond == x.second && !st'.ended && st'.ancient.None?
  {
    hide EntersDecisive;
  }

  lemma FourSteps(gameEnd: int, a: Input, b: Input, c: Input, d: Input)
    ensures Run(INITIAL, gameEnd, [a, b, c, d]) ==
      FeedStep(FeedStep(FeedStep(FeedStep(INITIAL, gameEnd, a), gameEnd, b), gameEnd, c), gameEnd, d)
  {
    hide FeedStep;
    assert [a, b, c, d][1..] == [b, c, d] && [b, c, d][1..] == [c, d] && [c, d][1..] == [d] && [d][1..] == [];
    var s1 := FeedStep(INITIAL, gameEnd, a);
    var s2 := FeedStep(s1, gameEnd, b);
    var s3 := FeedStep(s2, gameEnd, c);
    assert Run(s3, gameEnd, [d]) == FeedStep(s3, gameEnd, d);
    assert Run(s2, gameEnd, [c, d]) == Run(s3, gameEnd, [d]);
    assert Run(s1, gameEnd, [b, c, d]) == Run(s2, gameEnd, [c, d]);
  }

  /** The overrun is real: a single position sample long after the end closes a Decisive
      interval at second 50 of a game that ended at second 10. */
  lemma OverrunWitness()
    ensures LegalRun(10, LateSample())
    ensures !Tiling(Bounds(Replay(10, LateSample()).intervals), 0, Replay(10, LateSample()).eligibleSeconds)
  {
    var inputs := LateSample();
    LateSampleRun(10);
    hide LateSample;
    assert inputs[..|inputs|] == inputs;
    assert FiresPast(Run(INITIAL, 10, inputs[..|inputs|]), 11);
    TilesExactlyWhen(10, inputs);
  }

  /** Tiling is not all: had the game ended one second before the sample, the output would
      tile, yet report a reset at second 50 with no Midgame interval to follow it. */
  lemma LateResetWitness()
    ensures LegalRun(49, LateSample())
    ensures var out := Replay(49, LateSample());
      Tiling(Bounds(out.intervals), 0, out.eligibleSeconds) && !ExactOutput(out)
  {
    var inputs := LateSample();
    LateSampleRun(49);
    forall k | 0 <= k <= |inputs| ensures !FiresPast(Run(INITIAL, 49, inputs[..k]), 50) {
      RunBounded(INITIAL, 49, inputs[..k], 50);
    }
    hide LateSample, Run, Shape, Tiling;
    assert inputs[..|inputs|] == inputs;
    assert FiresReset(Run(INITIAL, 49, inputs[..|inputs|]), 50);
    TilesExactlyWhen(49, inputs);
    ExactWhen(49, inputs);
  }

  lemma WitnessWindows(t: Input, b0: Input, b1: Input)
    requires t.kind == TowerDeath && t.second == 1
    requires b0.kind == b1.kind == HeroBuyback && b0.second == b1.second == 5
    ensures EntersMidgame([t], 1) && EntersDecisive([t, b0, b1], 5) && Quiet([t, b0, b1], 50)
  {
    var l1, l2, l3 := [t], [t, b0], [t, b0, b1];
    assert l1[..0] == [] && l2[..1] == l1 && l3[..2] == l2;
    assert Count(l1, TowerDeath, 1, 1) == Count(l1[..0], TowerDeath, 1, 1) + 1;
    assert Count(l3, HeroBuyback, -114, 5) == Count(l2, HeroBuyback, -114, 5) + 1;
    assert Count(l2, HeroBuyback, -114, 5) == Count(l1, HeroBuyback, -114, 5) + 1;
    assert LastEvidence(l3) == Max(LastEvidence(l2), 5);
    assert LastEvidence(l2) == Max(LastEvidence(l1), 5);
    assert LastEvidence(l1) == Max(LastEvidence(l1[..0]), 1);
  }

  // ---- what a shape implies ----

  /** What the engine emits is what the review editor and the metrics call valid. */
  lemma {:induction false} ExactOutputIsOfficial(out: Output)
    requires ExactOutput(out)
    ensures ValidStream(Bounds(out.intervals), out.eligibleSeconds)
    ensures out.coveredSeconds == Covered(out.intervals) ==> out.coveredSeconds == out.eligibleSeconds
  {
    var s := Bounds(out.intervals);
    forall i | 0 < i < |s| ensures Official(s[i].phase) && s[i].phase != Laning {
      assert Follows(s[i - 1].phase, s[i].phase);
    }
    CoveredIsLength(out.intervals, out.eligibleSeconds);
  }

  lemma {:induction false} CoveredIsLength(intervals: seq<Interval>, end: int)
    requires Tiling(Bounds(intervals), 0, end) && AllOfficial(Bounds(intervals))
    ensures Covered(intervals) == end
  {
    var s := Bounds(intervals);
    var n := |intervals| - 1;
    if n > 0 {
      assert forall i :: 0 <= i < n ==> Bounds(intervals[..n])[i] == s[i];
      CoveredIsLength(intervals[..n], s[n].start);
    } else {
      assert intervals[..n] == [];
    }
    assert s[n] == intervals[n].bounds;
  }

  /** Every ordered, well-timed run: the output is an exact official stream. */
  lemma WellTimedIsOfficial(gameEnd: int, inputs: seq<Input>)
    requires LegalRun(gameEnd, inputs) && WellTimed(gameEnd, inputs)
    ensures var out := Replay(gameEnd, inputs);
      && ExactOutput(out)
      && 0 < out.eligibleSeconds <= gameEnd + 1
      && ValidStream(Bounds(out.intervals), out.eligibleSeconds)
  {
    hide *;
    WellTimedNeverOverruns(gameEnd, inputs);
    ExactTiling(gameEnd, inputs);
    ExactOutputIsOfficial(Replay(gameEnd, inputs));
  }
}
