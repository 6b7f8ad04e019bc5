/** Evidence is conserved: what the emitted intervals cite is exactly what was fed. */
module EngineEvidence {
  import opened Wrappers
  import opened Phases
  import opened EngineSpec
  import opened EngineTiling

  /** Deaths, buybacks, buildings and damage count each time; an ancient's death only the
      first. Positions and respawns are no evidence. */
  predicate Bears(prior: Log, x: Input) {
    match x.kind
    case AncientDeath => forall y :: y in prior ==> y.kind != AncientDeath
    case HeroPosition => false
    case Respawn => false
    case _ => true
  }

  function EvidenceInputs(log: Log): Log {
    if log == [] then []
    else
      var n := |log| - 1;
      EvidenceInputs(log[..n]) + (if Bears(log[..n], log[n]) then [log[n]] else [])
  }

  function Seqs(log: Log): seq<int> {
    seq(|log|, i requires 0 <= i < |log| => log[i].seqNo)
  }

  function Cited(intervals: seq<Interval>): seq<int> {
    if intervals == [] then [] else Cited(intervals[..|intervals| - 1]) + intervals[|intervals| - 1].evidence
  }

  predicate Belongs(second: int, bounds: PhaseInterval) {
    (bounds.start < second || bounds.start == 0) && second <= bounds.end
  }

  /** The intervals cite `fed` in order, each input in the interval that begins before it
      and ends with it or later; an input at second 0 belongs to the first. */
  ghost predicate Attributed(intervals: seq<Interval>, fed: Log) {
    if intervals == [] then fed == []
    else
      var n := |intervals| - 1;
      var k := |fed| - |intervals[n].evidence|;
      && k >= 0
      && intervals[n].evidence == Seqs(fed[k..])
      && (forall i :: k <= i < |fed| ==> Belongs(fed[i].second, intervals[n].bounds))
      && Attributed(intervals[..n], fed[..k])
  }

  /** The inputs at eligible seconds. */
  function Within(inputs: seq<Input>, eligible: int): seq<Input> {
    if inputs == [] then []
    else
      var n := |inputs| - 1;
      Within(inputs[..n], eligible) + (if 0 <= inputs[n].second < eligible then [inputs[n]] else [])
  }

  lemma SeqsConcat(a: Log, b: Log)
    ensures Seqs(a + b) == Seqs(a) + Seqs(b)
  {
  }

  lemma {:induction false} AttributedCites(intervals: seq<Interval>, fed: Log)
    requires Attributed(intervals, fed)
    ensures Cited(intervals) == Seqs(fed)
  {
    if intervals != [] {
      var n := |intervals| - 1;
      var k := |fed| - |intervals[n].evidence|;
      AttributedCites(intervals[..n], fed[..k]);
      assert fed == fed[..k] + fed[k..];
      SeqsConcat(fed[..k], fed[k..]);
    }
  }

  // ---- the invariant ----

  /** Of the evidence fed so far, the last `|pending|` inputs await an interval. */
  ghost predicate Tracks(st: State) {
    var fed := EvidenceInputs(st.log);
    var k := |fed| - |st.pending|;
    && k >= 0
    && st.pending == Seqs(fed[k..])
    && Attributed(st.intervals, fed[..k])
    && (forall i :: k <= i < |fed| ==> st.currentStart < fed[i].second || st.currentStart == 0)
  }

  ghost predicate LogInTime(st: State) {
    && (st.ancient.Some? <==> exists x :: x in st.log && x.kind == AncientDeath)
    && BoundedBy(st.log, st.lastSecond)
  }

  ghost predicate BoundedBy(log: Log, bound: int) {
    forall i :: 0 <= i < |log| ==> 0 <= log[i].second <= bound
  }

  lemma EvidenceAppend(log: Log, x: Input)
    ensures EvidenceInputs(log + [x]) == EvidenceInputs(log) + (if Bears(log, x) then [x] else [])
  {
    assert (log + [x])[..|log|] == log;
  }

  lemma {:induction false} EvidenceBounded(log: Log, bound: int)
    requires BoundedBy(log, bound)
    ensures BoundedBy(EvidenceInputs(log), bound)
  {
    if log != [] {
      var n := |log| - 1;
      assert 0 <= log[n].second <= bound;
      EvidenceBounded(log[..n], bound);
    }
  }

  /** Closing hands all pending evidence to the closed interval. */
  lemma CloseTracks(st: State, end: int, next: Phase)
    requires Tracks(st) && BoundedBy(st.log, end)
    ensures var st' := CloseInterval(st, end, next); Tracks(st') && (end > st.currentStart ==> st'.pending == [])
  {
    if end > st.currentStart {
      var st' := CloseInterval(st, end, next);
      var fed, n := EvidenceInputs(st.log), |st.intervals|;
      EvidenceBounded(st.log, end);
      hide EvidenceInputs, Attributed, BearsEvidence;
      assert st'.intervals == st.intervals + [st'.intervals[n]] && st'.intervals[n].evidence == st.pending;
      assert fed[..|fed|] == fed && fed[|fed|..] == [];
      AttributedNext(st.intervals, st'.intervals[n], fed);
    }
  }

  lemma AttributedNext(intervals: seq<Interval>, iv: Interval, fed: Log)
    requires AttributesLast(intervals, iv, fed)
    ensures Attributed(intervals + [iv], fed)
  {
    var all := intervals + [iv];
    assert all != [] && all[|all| - 1] == iv && all[..|all| - 1] == intervals;
    AttributedIs(all, fed);
    hide Attributed, AttributesLast;
  }

  ghost predicate AttributesLast(intervals: seq<Interval>, iv: Interval, fed: Log) {
    var k := |fed| - |iv.evidence|;
    && k >= 0 && iv.evidence == Seqs(fed[k..]) && Attributed(intervals, fed[..k])
    && forall i :: k <= i < |fed| ==> Belongs(fed[i].second, iv.bounds)
  }

  lemma AttributedIs(intervals: seq<Interval>, fed: Log)
    requires intervals != []
    ensures Attributed(intervals, fed) == AttributesLast(intervals[..|intervals| - 1], intervals[|intervals| - 1], fed)
  {
    hide Seqs;
  }

  lemma TransitionTracks(st: State, s: int, to: Phase)
    requires Tracks(st) && BoundedBy(st.log, s) && (st.currentStart < s || (st.currentStart == 0 && s == 0))
    ensures Tracks(Transition(st, s, to))
  {
    CloseTracks(st, s, to);
    hide Attributed;
  }

  lemma FinalizeTracks(st: State)
    requires OpenInvariant(st) && Tracks(st) && LogInTime(st)
    ensures var st' := FinalizeSecond(st, st.lastSecond); Tracks(st') && (st'.ended ==> st'.pending == [])
  {
    hide Shape;
    hide Tracks;
    var s := st.lastSecond;
    if s < 0 {
    } else if st.ancient.Some? && st.ancient.value <= s {
      CloseTracks(st, s + 1, ENDED);
      EndingTracks(CloseInterval(st, s + 1, ENDED));
    } else {
      var d := Decide(st.log, st.current, s);
      if d.Some? {
        TransitionTracks(st, s, d.value);
      }
    }
  }

  lemma EndingTracks(st: State)
    requires Tracks(st)
    ensures Tracks(st.(ended := true))
  {
  }

  lemma RecordTracks(st: State, x: Input)
    requires Tracks(st) && LogInTime(st) && (st.currentStart < x.second || st.currentStart == 0)
    ensures Tracks(Record(st, x))
  {
    RecordPends(st, x);
    EvidenceAppend(st.log, x);
    PendingMore(st, Record(st, x), x);
    hide Record, Bears, EvidenceInputs, LogInTime, Tracks;
  }

  lemma PendingMore(st: State, st': State, x: Input)
    requires Tracks(st) && (st.currentStart < x.second || st.currentStart == 0)
    requires st'.intervals == st.intervals && st'.currentStart == st.currentStart
    requires if Bears(st.log, x)
             then EvidenceInputs(st'.log) == EvidenceInputs(st.log) + [x] && st'.pending == st.pending + [x.seqNo]
             else EvidenceInputs(st'.log) == EvidenceInputs(st.log) && st'.pending == st.pending
    ensures Tracks(st')
  {
    hide Attributed, Bears, EvidenceInputs;
    var fed := EvidenceInputs(st.log);
    var k := |fed| - |st.pending|;
    if Bears(st.log, x) {
      assert (fed + [x])[k..] == fed[k..] + [x] && (fed + [x])[..k] == fed[..k];
      SeqsConcat(fed[k..], [x]);
    }
  }

  /** Recording adds to the log and, when the input bears evidence, to what is pending. */
  lemma RecordPends(st: State, x: Input)
    requires LogInTime(st)
    ensures var st' := Record(st, x);
      && st'.log == st.log + [x] && st'.intervals == st.intervals && st'.currentStart == st.currentStart
      && st'.pending == if Bears(st.log, x) then st.pending + [x.seqNo] else st.pending
  {}

  lemma RecordInTime(st: State, x: Input)
    requires LogInTime(st) && x.second == st.lastSecond >= 0
    ensures LogInTime(Record(st, x))
  {
    var st' := Record(st, x);
    assert st'.log[|st.log|] == x;
    assert forall y :: y in st'.log <==> y in st.log || y == x;
  }

  // ---- whole runs ----

  lemma WithinAppend(inputs: seq<Input>, x: Input, e: int)
    ensures Within(inputs + [x], e) == if 0 <= x.second < e then Within(inputs, e) + [x] else Within(inputs, e)
  {
    assert (inputs + [x])[..|inputs|] == inputs;
  }

  /** What has been cited after feeding `fed`. Past the end nothing is cited any more. */
  ghost predicate CitesSoFar(st: State, gameEnd: int, fed: seq<Input>) {
    if st.ended then
      && st.ancient.Some? && 0 <= st.ancient.value <= gameEnd && st.ancient.value < st.lastSecond
      && Attributed(st.intervals, EvidenceInputs(Within(fed, st.ancient.value + 1)))
    else
      Tracks(st) && LogInTime(st) && FedUpTo(fed, st.lastSecond) && st.log == Within(fed, gameEnd + 1)
  }

  lemma FinalizeKeepsLog(st: State, s: int)
    ensures var st' := FinalizeSecond(st, s);
      && st'.log == st.log && st'.ancient == st.ancient && st'.lastSecond == st.lastSecond
      && (st.ancient.None? ==> st'.ended == st.ended)
      && (!st.ended && s >= 0 && st.ancient.Some? && st.ancient.value <= s ==> st'.ended)
      && (!st.ended && st.currentStart <= s ==> st'.currentStart <= s)
      && (s < 0 ==> st' == st)
  {
  }

  lemma AllCited(st: State)
    requires Tracks(st) && st.pending == []
    ensures Attributed(st.intervals, EvidenceInputs(st.log))
  {
    hide Attributed;
    var all := EvidenceInputs(st.log);
    assert all[..|all|] == all;
  }

  ghost predicate FedUpTo(fed: seq<Input>, bound: int) {
    forall i :: 0 <= i < |fed| ==> fed[i].second <= bound || fed[i].second < 0
  }

  lemma {:induction false} WithinUpTo(inputs: seq<Input>, bound: int, e1: int, e2: int)
    requires FedUpTo(inputs, bound) && bound < e1 && bound < e2
    ensures Within(inputs, e1) == Within(inputs, e2)
  {
    if inputs != [] {
      var n := |inputs| - 1;
      assert inputs[n].second <= bound || inputs[n].second < 0;
      WithinUpTo(inputs[..n], bound, e1, e2);
    }
  }

  lemma EndedCites(st: State, gameEnd: int, fed: seq<Input>)
    requires OpenInvariant(st) && CitesSoFar(st, gameEnd, fed) && st.ancient.Some? && st.ancient.value <= gameEnd
    ensures var st' := FinalizeSecond(st, st.lastSecond);
      st'.ended && Attributed(st'.intervals, EvidenceInputs(Within(fed, st.ancient.value + 1)))
  {
    hide Shape;
    hide Attributed;
    hide Tracks;
    FinalizeTracks(st);
    FinalizeKeepsLog(st, st.lastSecond);
    WithinUpTo(fed, st.lastSecond, gameEnd + 1, st.ancient.value + 1);
    hide FinalizeSecond;
    AllCited(FinalizeSecond(st, st.lastSecond));
  }

  lemma FeedCites(st: State, gameEnd: int, fed: seq<Input>, x: Input)
    requires Invariant(st) && CitesSoFar(st, gameEnd, fed) && (x.second >= st.lastSecond || x.second < 0)
    requires st.ancient.Some? ==> st.ancient.value <= gameEnd
    ensures CitesSoFar(FeedStep(st, gameEnd, x), gameEnd, fed + [x])
  {
    hide *;
    if x.second < 0 || st.ended {
      IgnoredStep(st, gameEnd, x);
      IgnoredCites(st, gameEnd, fed, x);
    } else {
      OpenNow(st);
      if x.second > st.lastSecond {
        AdvanceCites(st, gameEnd, fed, x);
      } else {
        SameSecondStep(st, gameEnd, x);
        AcceptCites(st, gameEnd, fed, x);
      }
    }
  }

  lemma IgnoredStep(st: State, gameEnd: int, x: Input)
    requires x.second < 0 || st.ended
    ensures FeedStep(st, gameEnd, x) == st
  {}

  lemma SameSecondStep(st: State, gameEnd: int, x: Input)
    requires !st.ended && x.second == st.lastSecond >= 0
    ensures FeedStep(st, gameEnd, x) == if x.second > gameEnd then st else Record(st, x)
  {
    hide FinalizeSecond, Record;
  }

  lemma OpenNow(st: State)
    requires Invariant(st) && !st.ended
    ensures OpenInvariant(st) && (st.currentStart < st.lastSecond || st.currentStart == 0)
  {
    hide Shape;
  }

  lemma IgnoredCites(st: State, gameEnd: int, fed: seq<Input>, x: Input)
    requires CitesSoFar(st, gameEnd, fed) && (x.second < 0 || (st.ended && x.second >= st.lastSecond))
    ensures CitesSoFar(st, gameEnd, fed + [x])
  {
    hide Attributed;
    hide Tracks;
    hide LogInTime;
    hide EvidenceInputs;
    hide Within;
    WithinAppend(fed, x, gameEnd + 1);
    if st.ended { WithinAppend(fed, x, st.ancient.value + 1); }
  }

  lemma AdvanceCites(st: State, gameEnd: int, fed: seq<Input>, x: Input)
    requires OpenInvariant(st) && CitesSoFar(st, gameEnd, fed) && x.second > st.lastSecond && x.second >= 0
    requires st.ancient.Some? ==> st.ancient.value <= gameEnd
    ensures CitesSoFar(FeedStep(st, gameEnd, x), gameEnd, fed + [x])
  {
    hide Shape;
    hide Attributed;
    hide Tracks;
    hide LogInTime;
    hide EvidenceInputs;
    hide Within;
    var settled := FinalizeSecond(st, st.lastSecond);
    FinalizeKeepsLog(st, st.lastSecond);
    hide FinalizeSecond;
    assert forall i :: 0 <= i < |fed| ==> (fed + [x])[i] == fed[i];
    if st.ancient.Some? {
      EndedCites(st, gameEnd, fed);
      WithinAppend(fed, x, st.ancient.value + 1);
    } else {
      FinalizeTracks(st);
      AdvanceTracks(st, settled, x.second);
      AcceptCites(settled.(lastSecond := x.second), gameEnd, fed, x);
    }
  }

  lemma AcceptCites(st: State, gameEnd: int, fed: seq<Input>, x: Input)
    requires CitesSoFar(st, gameEnd, fed) && !st.ended && x.second == st.lastSecond >= 0
    requires st.currentStart < x.second || st.currentStart == 0
    ensures CitesSoFar(if x.second > gameEnd then st else Record(st, x), gameEnd, fed + [x])
  {
    hide Attributed;
    hide Tracks;
    hide LogInTime;
    hide EvidenceInputs;
    hide Within;
    WithinAppend(fed, x, gameEnd + 1);
    assert forall i :: 0 <= i < |fed| ==> (fed + [x])[i] == fed[i];
    if x.second <= gameEnd {
      RecordTracks(st, x);
      RecordInTime(st, x);
    }
  }

  lemma AdvanceTracks(st: State, settled: State, next: int)
    requires LogInTime(st) && Tracks(settled) && settled.log == st.log && settled.ancient == st.ancient
    requires st.lastSecond <= next
    ensures Tracks(settled.(lastSecond := next)) && LogInTime(settled.(lastSecond := next))
  {
    hide Attributed;
  }

  lemma {:induction false} RunCites(st: State, gameEnd: int, fed: seq<Input>, inputs: seq<Input>)
    requires Invariant(st) && CitesSoFar(st, gameEnd, fed) && Continues(st, inputs)
    requires st.ended ==> forall i :: 0 <= i < |inputs| ==> inputs[i].second >= st.lastSecond
    requires st.ancient.Some? ==> st.ancient.value <= gameEnd
    ensures CitesSoFar(Run(st, gameEnd, inputs), gameEnd, fed + inputs)
    decreases |inputs|
  {
    hide Shape;
    hide CitesSoFar;
    if inputs == [] {
      assert fed + inputs == fed;
    } else {
      FeedCites(st, gameEnd, fed, inputs[0]);
      FeedKeepsInvariant(st, gameEnd, inputs[0]);
      assert fed + inputs == (fed + [inputs[0]]) + inputs[1..];
      RunCites(FeedStep(st, gameEnd, inputs[0]), gameEnd, fed + [inputs[0]], inputs[1..]);
    }
  }

  /** Every legal run: the emitted intervals cite exactly the evidence-bearing inputs at
      eligible seconds, in feed order, each once, within their interval's bounds. */
  lemma EvidenceConserved(gameEnd: int, inputs: seq<Input>)
    requires LegalRun(gameEnd, inputs)
    ensures var out := Replay(gameEnd, inputs);
      var fed := EvidenceInputs(Within(inputs, out.eligibleSeconds));
      Attributed(out.intervals, fed) && Cited(out.intervals) == Seqs(fed)
  {
    hide *;
    WholeRunCites(gameEnd, inputs);
    EndCites(Run(INITIAL, gameEnd, inputs), gameEnd, inputs);
    ReplayIs(gameEnd, inputs);
    var out := Replay(gameEnd, inputs);
    AttributedCites(out.intervals, EvidenceInputs(Within(inputs, out.eligibleSeconds)));
  }

  lemma WholeRunCites(gameEnd: int, inputs: seq<Input>)
    requires LegalRun(gameEnd, inputs)
    ensures var st := Run(INITIAL, gameEnd, inputs);
      && gameEnd >= 0 && Invariant(st) && CitesSoFar(st, gameEnd, inputs)
      && (st.ancient.Some? ==> st.ancient.value <= gameEnd)
  {
    StartFacts(gameEnd, inputs);
    hide *;
    InitialCites(gameEnd);
    RunCites(INITIAL, gameEnd, [], inputs);
    assert [] + inputs == inputs;
    RunInvariant(gameEnd, inputs);
    AncientInTime(INITIAL, gameEnd, inputs);
  }

  lemma StartFacts(gameEnd: int, inputs: seq<Input>)
    requires LegalRun(gameEnd, inputs)
    ensures gameEnd >= 0 && NonDecreasing(inputs) && Invariant(INITIAL) && Continues(INITIAL, inputs)
    ensures !INITIAL.ended && INITIAL.ancient.None?
  {
    InitialInvariant();
    hide OpenInvariant;
  }

  lemma ReplayIs(gameEnd: int, inputs: seq<Input>)
    requires EndStep(Run(INITIAL, gameEnd, inputs), gameEnd).ancient == Run(INITIAL, gameEnd, inputs).ancient
    ensures Replay(gameEnd, inputs).intervals == EndStep(Run(INITIAL, gameEnd, inputs), gameEnd).intervals
    ensures Replay(gameEnd, inputs).eligibleSeconds == Eligible(Run(INITIAL, gameEnd, inputs).ancient, gameEnd)
  {
    hide EndStep, Run;
  }

  lemma EndCites(st: State, gameEnd: int, inputs: seq<Input>)
    requires Invariant(st) && CitesSoFar(st, gameEnd, inputs) && gameEnd >= 0
    requires st.ancient.Some? ==> st.ancient.value <= gameEnd
    ensures Attributed(EndStep(st, gameEnd).intervals, EvidenceInputs(Within(inputs, Eligible(st.ancient, gameEnd))))
    ensures EndStep(st, gameEnd).ancient == st.ancient
  {
    hide Shape;
    hide Attributed;
    hide Tracks;
    hide LogInTime;
    hide EvidenceInputs;
    hide Within;
    if !st.ended {
      EndIsSettled(st, gameEnd);
      FinalizeKeepsLog(st, st.lastSecond);
      hide FinalizeSecond;
      hide EndStep;
      if st.ancient.Some? {
        EndedCites(st, gameEnd, inputs);
      } else {
        FinalizeTracks(st);
        WithinBounded(inputs, gameEnd + 1);
        ClockEndCites(FinalizeSecond(st, st.lastSecond), gameEnd);
      }
    }
  }

  lemma InitialTracks()
    ensures Tracks(INITIAL)
  {
    var none: Log := [];
    assert EvidenceInputs(none) == none && none[0..] == none && none[..0] == none;
  }

  lemma InitialCites(gameEnd: int)
    ensures CitesSoFar(INITIAL, gameEnd, [])
  {
    InitialTracks();
    hide Tracks;
    hide Attributed;
    assert LogInTime(INITIAL) && FedUpTo([], -1);
  }

  lemma {:induction false} WithinBounded(inputs: seq<Input>, eligible: int)
    ensures BoundedBy(Within(inputs, eligible), eligible - 1)
  {
    if inputs != [] {
      WithinBounded(inputs[..|inputs| - 1], eligible);
    }
  }

  lemma PendingIsRecent(st: State, bound: int)
    requires Tracks(st) && BoundedBy(st.log, bound) && st.pending != []
    ensures st.currentStart <= bound
  {
    var fed := EvidenceInputs(st.log);
    EvidenceBounded(st.log, bound);
    assert st.currentStart <= fed[|fed| - 1].second;
  }

  lemma ClockEndCites(st: State, gameEnd: int)
    requires !st.ended && Tracks(st) && BoundedBy(st.log, gameEnd)
    ensures Attributed(EndAtClock(st, gameEnd).intervals, EvidenceInputs(st.log))
  {
    hide Attributed;
    var all := EvidenceInputs(st.log);
    assert all[..|all|] == all;
    if gameEnd + 1 > st.currentStart {
      CloseTracks(st, gameEnd + 1, ENDED);
    } else {
      if st.pending != [] {
        PendingIsRecent(st, gameEnd);
      }
    }
  }

  // ---- resets ----

  /** The reset comes with the end of a Decisive interval and cites what that one cites. */
  predicate EndsRound(r: ResetEpisode, iv: Interval) {
    iv.bounds.phase == Decisive && iv.bounds.end == r.start && iv.evidence == r.evidence && r.end == r.start + 90
  }

  ghost predicate ResetsCite(resets: seq<ResetEpisode>, intervals: seq<Interval>) {
    forall k :: 0 <= k < |resets| ==> EndsSome(resets[k], intervals)
  }

  ghost predicate EndsSome(r: ResetEpisode, intervals: seq<Interval>) {
    exists i :: 0 <= i < |intervals| && EndsRound(r, intervals[i])
  }

  lemma CloseCites(st: State, end: int, next: Phase)
    requires ResetsCite(st.resets, st.intervals)
    ensures var st' := CloseInterval(st, end, next); ResetsCite(st'.resets, st'.intervals)
  {
    var st' := CloseInterval(st, end, next);
    forall k | 0 <= k < |st'.resets| ensures EndsSome(st'.resets[k], st'.intervals) {
      if k < |st.resets| {
        assert EndsSome(st.resets[k], st.intervals);
        var i :| 0 <= i < |st.intervals| && EndsRound(st.resets[k], st.intervals[i]);
        assert EndsRound(st'.resets[k], st'.intervals[i]);
      } else {
        assert EndsRound(st'.resets[k], st'.intervals[|st.intervals|]);
      }
    }
  }

  lemma FinalizeResets(st: State, s: int)
    requires ResetsCite(st.resets, st.intervals)
    ensures var st' := FinalizeSecond(st, s); ResetsCite(st'.resets, st'.intervals)
  {
    CloseCites(st, s + 1, ENDED);
    CloseCites(st, s, Midgame);
    CloseCites(st, s, Decisive);
    hide ResetsCite, CloseInterval;
  }

  lemma {:induction false} RunResets(st: State, gameEnd: int, inputs: seq<Input>)
    requires ResetsCite(st.resets, st.intervals)
    ensures var st' := Run(st, gameEnd, inputs); ResetsCite(st'.resets, st'.intervals)
    decreases |inputs|
  {
    if inputs != [] {
      FinalizeResets(st, st.lastSecond);
      var st1 := FeedStep(st, gameEnd, inputs[0]);
      assert ResetsCite(st1.resets, st1.intervals) by { hide ResetsCite, FinalizeSecond; }
      hide ResetsCite, FeedStep;
      RunResets(st1, gameEnd, inputs[1..]);
    }
  }

  /** Every reset a run reports lasts 90 seconds from the end of a Decisive interval and
      cites the evidence of that interval. */
  lemma ResetsCiteTheirRound(gameEnd: int, inputs: seq<Input>)
    ensures var out := Replay(gameEnd, inputs); ResetsCite(out.resets, out.intervals)
  {
    RunResets(INITIAL, gameEnd, inputs);
    var st := Run(INITIAL, gameEnd, inputs);
    hide Run, ResetsCite, FinalizeSecond, CloseInterval;
    if !st.ended {
      FinalizeResets(st, st.lastSecond);
      var settled := SettleAncient(st, gameEnd);
      FinalizeResets(settled, settled.lastSecond);
      CloseCites(FinalizeSecond(settled, settled.lastSecond), gameEnd + 1, ENDED);
    }
  }
}
