/** The engine is online and order-blind within a second: the label of a second depends
    only on which inputs lie at or before it. */
module EngineCausality {
  import opened Wrappers
  import opened Phases
  import opened EngineSpec
  import opened EngineTiling

  // ---- states that agree on everything but the order inside a second ----

  ghost predicate SameWindows(a: Log, b: Log) {
    && (forall k, lo, hi :: Count(a, k, lo, hi) == Count(b, k, lo, hi))
    && (forall x :: x in a <==> x in b)
    && LastEvidence(a) == LastEvidence(b)
  }

  ghost predicate Similar(a: State, b: State) {
    && a.ended == b.ended
    && a.ancient == b.ancient
    && a.currentStart == b.currentStart
    && Bounds(a.intervals) == Bounds(b.intervals)
    && ResetStarts(a.resets) == ResetStarts(b.resets)
    && (!a.ended ==>
          && a.current == b.current
          && a.roundIndex == b.roundIndex
          && a.lastSecond == b.lastSecond
          && SameWindows(a.log, b.log))
  }

  lemma WindowsAppend(a: Log, b: Log, x: Input)
    requires SameWindows(a, b)
    ensures SameWindows(a + [x], b + [x])
  {
    forall k, lo, hi ensures Count(a + [x], k, lo, hi) == Count(b + [x], k, lo, hi) {
      CountAppend(a, x, k, lo, hi);
      CountAppend(b, x, k, lo, hi);
    }
    LastEvidenceAppend(a, x);
    LastEvidenceAppend(b, x);
  }

  lemma WindowsSwap(a: Log, b: Log, x: Input, y: Input)
    requires SameWindows(a, b)
    ensures SameWindows(a + [x] + [y], b + [y] + [x])
  {
    forall k, lo, hi ensures Count(a + [x] + [y], k, lo, hi) == Count(b + [y] + [x], k, lo, hi) {
      CountAppend(a, x, k, lo, hi);
      CountAppend(a + [x], y, k, lo, hi);
      CountAppend(b, y, k, lo, hi);
      CountAppend(b + [y], x, k, lo, hi);
    }
    LastEvidenceAppend(a, x);
    LastEvidenceAppend(a + [x], y);
    LastEvidenceAppend(b, y);
    LastEvidenceAppend(b + [y], x);
    forall z ensures z in a + [x] + [y] <==> z in b + [y] + [x] {}
  }

  lemma SameDecision(a: Log, b: Log, current: Phase, s: int)
    requires SameWindows(a, b)
    ensures Decide(a, current, s) == Decide(b, current, s)
  {
    assert Fighters(a, s - 20, s) == Fighters(b, s - 20, s);
  }

  lemma SimilarClose(a: State, b: State, end: int, next: Phase)
    requires Similar(a, b) && !a.ended
    ensures Similar(CloseInterval(a, end, next), CloseInterval(b, end, next))
  {
    hide SameWindows;
    if end > a.currentStart {
      var a', b' := CloseInterval(a, end, next), CloseInterval(b, end, next);
      BoundsAppend(a.intervals, a'.intervals[|a.intervals|]);
      BoundsAppend(b.intervals, b'.intervals[|b.intervals|]);
      if a.current == Decisive && next == Midgame {
        assert ResetStarts(a'.resets) == ResetStarts(a.resets) + [end];
        assert ResetStarts(b'.resets) == ResetStarts(b.resets) + [end];
      }
    }
  }

  lemma SimilarFinalize(a: State, b: State, s: int)
    requires Similar(a, b)
    ensures Similar(FinalizeSecond(a, s), FinalizeSecond(b, s))
  {
    if !a.ended && s >= 0 {
      SameDecision(a.log, b.log, a.current, s);
      hide SameWindows;
      SimilarClose(a, b, s + 1, ENDED);
      var d := Decide(a.log, a.current, s);
      if d.Some? {
        SimilarClose(a, b, s, d.value);
      }
    }
  }

  lemma SimilarRecord(a: State, b: State, x: Input)
    requires Similar(a, b)
    ensures Similar(Record(a, x), Record(b, x))
  {
    if !a.ended { WindowsAppend(a.log, b.log, x); }
    hide SameWindows;
  }

  /** Similar states stay similar under the same input. */
  lemma SimilarFeed(a: State, b: State, gameEnd: int, x: Input)
    requires Similar(a, b)
    ensures Similar(FeedStep(a, gameEnd, x), FeedStep(b, gameEnd, x))
  {
    hide SameWindows;
    if x.second >= 0 && !a.ended {
      SimilarFinalize(a, b, a.lastSecond);
      SimilarRecord(Advance(a, x), Advance(b, x), x);
      hide FinalizeSecond;
    }
  }

  ghost function Advance(st: State, x: Input): State {
    if x.second > st.lastSecond then FinalizeSecond(st, st.lastSecond).(lastSecond := x.second) else st
  }

  lemma {:induction false} SimilarRun(a: State, b: State, gameEnd: int, inputs: seq<Input>)
    requires Similar(a, b)
    ensures Similar(Run(a, gameEnd, inputs), Run(b, gameEnd, inputs))
    decreases |inputs|
  {
    hide Similar;
    if inputs != [] {
      SimilarFeed(a, b, gameEnd, inputs[0]);
      SimilarRun(FeedStep(a, gameEnd, inputs[0]), FeedStep(b, gameEnd, inputs[0]), gameEnd, inputs[1..]);
    }
  }

  lemma SimilarEnd(a: State, b: State, gameEnd: int)
    requires Similar(a, b)
    ensures Similar(EndStep(a, gameEnd), EndStep(b, gameEnd))
  {
    if !a.ended {
      SimilarFinalize(a, b, a.lastSecond);
      var a1, b1 := SettleAncient(a, gameEnd), SettleAncient(b, gameEnd);
      hide SameWindows;
      hide FinalizeSecond;
      assert Similar(a1, b1);
      if !a1.ended {
        SimilarFinalize(a1, b1, a1.lastSecond);
      }
      var a2, b2 := FinalizeSecond(a1, a1.lastSecond), FinalizeSecond(b1, b1.lastSecond);
      SettledSimilar(a1, b1, gameEnd);
    }
  }

  lemma SettledSimilar(a: State, b: State, gameEnd: int)
    requires Similar(a, b)
    ensures Similar(EndAtClock(FinalizeSecond(a, a.lastSecond), gameEnd),
              EndAtClock(FinalizeSecond(b, b.lastSecond), gameEnd))
  {
    hide SameWindows;
    SimilarFinalize(a, b, a.lastSecond);
    if !a.ended {
      var a1, b1 := FinalizeSecond(a, a.lastSecond), FinalizeSecond(b, b.lastSecond);
      hide FinalizeSecond;
      if !a1.ended { SimilarClose(a1, b1, gameEnd + 1, ENDED); }
    }
  }

  // ---- order inside a second ----

  /** Two inputs at the same second may arrive in either order. */
  lemma Swap(st: State, gameEnd: int, x: Input, y: Input)
    requires x.second == y.second
    ensures Similar(FeedStep(FeedStep(st, gameEnd, x), gameEnd, y), FeedStep(FeedStep(st, gameEnd, y), gameEnd, x))
  {
    if x.second >= 0 && !st.ended {
      var adv := Advance(st, x);
      hide FinalizeSecond, Record;
      if x.second <= gameEnd && !adv.ended {
        hide Similar;
        FedTwice(st, gameEnd, x, y);
        FedTwice(st, gameEnd, y, x);
        SwapRecord(adv, x, y);
      }
    }
  }

  lemma FedTwice(st: State, gameEnd: int, x: Input, y: Input)
    requires x.second == y.second && 0 <= x.second <= gameEnd && !st.ended && !Advance(st, x).ended
    ensures FeedStep(FeedStep(st, gameEnd, x), gameEnd, y) == Record(Record(Advance(st, x), x), y)
  {
    hide FinalizeSecond;
  }

  lemma SwapRecord(st: State, x: Input, y: Input)
    requires x.second == y.second
    ensures Similar(Record(Record(st, x), y), Record(Record(st, y), x))
  {
    WindowsSwap(st.log, st.log, x, y);
    RecordAdds(st, x);
    RecordAdds(st, y);
    RecordAdds(Record(st, x), y);
    RecordAdds(Record(st, y), x);
    hide SameWindows, BearsEvidence, Bounds, ResetStarts, Record;
  }

  /** Recording touches the log, the open evidence and the first fall of the ancient. */
  lemma RecordAdds(st: State, x: Input)
    ensures var r := Record(st, x);
      && r == st.(log := st.log + [x], pending := r.pending, ancient := r.ancient)
      && r.ancient == (if x.kind == AncientDeath && !BearsEvidence(x.kind) && st.ancient.None? then Some(x.second)
                       else st.ancient)
  {
  }

  lemma SimilarTransitive(a: State, b: State, c: State)
    requires Similar(a, b) && Similar(b, c)
    ensures Similar(a, c)
  {
  }

  lemma SimilarReflexive(a: State)
    ensures Similar(a, a)
  {
  }

  /** An input moves to the front of others at its own second. */
  lemma {:induction false} Bubble(st: State, gameEnd: int, before: seq<Input>, x: Input, rest: seq<Input>)
    requires forall i :: 0 <= i < |before| ==> before[i].second == x.second
    ensures Similar(Run(st, gameEnd, before + [x] + rest), Run(st, gameEnd, [x] + before + rest))
    decreases |before|
  {
    hide Similar;
    if before == [] {
      assert before + [x] + rest == [x] + before + rest;
      SimilarReflexive(Run(st, gameEnd, before + [x] + rest));
    } else {
      var p, others := before[0], before[1..];
      var sp, sx := FeedStep(st, gameEnd, p), FeedStep(st, gameEnd, x);
      Bubble(sp, gameEnd, others, x, rest);
      assert (before + [x] + rest)[1..] == others + [x] + rest;
      assert ([x] + others + rest)[1..] == others + rest;
      assert ([x] + before + rest)[1..] == before + rest && (before + rest)[1..] == others + rest;
      Swap(st, gameEnd, p, x);
      SimilarRun(FeedStep(sp, gameEnd, x), FeedStep(sx, gameEnd, p), gameEnd, others + rest);
      var via := [x] + others + rest;
      assert via[0] == x && via[1..] == others + rest;
      assert Run(sp, gameEnd, via) == Run(FeedStep(sp, gameEnd, x), gameEnd, others + rest);
      var moved := [x] + before + rest;
      assert Run(st, gameEnd, moved) == Run(sx, gameEnd, before + rest) ==
               Run(FeedStep(sx, gameEnd, p), gameEnd, others + rest);
      SimilarTransitive(Run(st, gameEnd, before + [x] + rest), Run(sp, gameEnd, via), Run(st, gameEnd, moved));
    }
  }

  lemma Earlier(xs: seq<Input>, ys: seq<Input>, i: nat, j: nat)
    requires NonDecreasing(xs) && NonDecreasing(ys) && multiset(xs) == multiset(ys)
    requires j <= i < |xs| && ys != [] && xs[i] == ys[0]
    ensures xs[j].second == ys[0].second
  {
    assert xs[j] in multiset(ys);
    var k :| 0 <= k < |ys| && ys[k] == xs[j];
  }

  lemma RemoveOne(xs: seq<Input>, ys: seq<Input>, i: nat)
    requires multiset(xs) == multiset(ys) && i < |xs| && ys != [] && xs[i] == ys[0]
    ensures multiset(xs[..i] + xs[i + 1..]) == multiset(ys[1..])
  {
    var before, rest := xs[..i], xs[i + 1..];
    assert ys == [ys[0]] + ys[1..];
    assert xs == before + [xs[i]] + rest;
    assert multiset(xs) == multiset(before) + multiset{xs[i]} + multiset(rest);
    assert multiset(ys) == multiset{ys[0]} + multiset(ys[1..]);
    assert multiset(before + rest) == multiset(xs) - multiset{xs[i]};
    assert multiset(ys[1..]) == multiset(ys) - multiset{ys[0]};
  }

  lemma RemovalStaysOrdered(xs: seq<Input>, i: nat)
    requires NonDecreasing(xs) && i < |xs|
    ensures NonDecreasing(xs[..i] + xs[i + 1..])
  {
    var moved := xs[..i] + xs[i + 1..];
    forall a, b | 0 <= a < b < |moved| ensures moved[a].second <= moved[b].second {
      var a', b' := if a < i then a else a + 1, if b < i then b else b + 1;
      assert moved[a] == xs[a'] && moved[b] == xs[b'];
    }
  }

  /** Where the first input of one ordering sits in the other. */
  lemma TakeOut(xs: seq<Input>, ys: seq<Input>) returns (i: nat)
    requires NonDecreasing(xs) && NonDecreasing(ys) && multiset(xs) == multiset(ys) && ys != []
    ensures i < |xs| && xs[i] == ys[0] && forall j :: 0 <= j < i ==> xs[j].second == ys[0].second
    ensures multiset(xs[..i] + xs[i + 1..]) == multiset(ys[1..]) && NonDecreasing(xs[..i] + xs[i + 1..])
  {
    assert ys[0] in multiset(xs);
    i :| 0 <= i < |xs| && xs[i] == ys[0];
    forall j | 0 <= j < i ensures xs[j].second == ys[0].second {
      Earlier(xs, ys, i, j);
    }
    RemoveOne(xs, ys, i);
    RemovalStaysOrdered(xs, i);
  }

  /** Ordered runs over the same inputs differ only in the order inside seconds, and
      that order shows neither in the bounds and labels nor in the resets. */
  lemma {:induction false} OrderWithinSecond(st: State, gameEnd: int, xs: seq<Input>, ys: seq<Input>)
    requires NonDecreasing(xs) && NonDecreasing(ys) && multiset(xs) == multiset(ys)
    ensures Similar(Run(st, gameEnd, xs), Run(st, gameEnd, ys))
    decreases |xs|
  {
    hide Similar;
    if ys == [] {
      assert |multiset(xs)| == 0;
      SimilarReflexive(st);
    } else {
      var y := ys[0];
      var i := TakeOut(xs, ys);
      var before, rest := xs[..i], xs[i + 1..];
      assert xs == before + [y] + rest;
      Bubble(st, gameEnd, before, y, rest);
      OrderWithinSecond(FeedStep(st, gameEnd, y), gameEnd, before + rest, ys[1..]);
      assert ([y] + before + rest)[1..] == before + rest;
      SimilarTransitive(Run(st, gameEnd, xs), Run(st, gameEnd, [y] + before + rest), Run(st, gameEnd, ys));
    }
  }

  /** The emitted bounds, labels, round numbers and resets of two ordered runs agree
      whenever the runs hold the same inputs. */
  lemma OrderNeverShows(gameEnd: int, xs: seq<Input>, ys: seq<Input>)
    requires NonDecreasing(xs) && NonDecreasing(ys) && multiset(xs) == multiset(ys)
    ensures var a, b := Replay(gameEnd, xs), Replay(gameEnd, ys);
      && Bounds(a.intervals) == Bounds(b.intervals)
      && ResetStarts(a.resets) == ResetStarts(b.resets)
      && a.eligibleSeconds == b.eligibleSeconds
  {
    OrderWithinSecond(INITIAL, gameEnd, xs, ys);
    SimilarEnd(Run(INITIAL, gameEnd, xs), Run(INITIAL, gameEnd, ys), gameEnd);
    hide EndStep;
    hide SameWindows;
  }

  // ---- causality ----

  function UpTo(inputs: seq<Input>, t: int): seq<Input> {
    if inputs == [] then []
    else (if inputs[0].second <= t then [inputs[0]] else []) + UpTo(inputs[1..], t)
  }

  /** The label that the state has settled on for a second it has already left behind. */
  function SettledLabel(st: State, t: int): Option<Phase> {
    var closed := LabelAt(Bounds(st.intervals), t);
    if closed.Some? || st.ended || t < st.currentStart then closed else Some(st.current)
  }

  lemma CloseKeepsLabel(st: State, end: int, next: Phase, t: int)
    requires OpenInvariant(st) && 0 <= t < end && st.currentStart < end
    ensures LabelAt(Bounds(CloseInterval(st, end, next).intervals), t) == SettledLabel(st, t)
  {
    BoundsAppend(st.intervals, Interval(Open(st, end), st.pending));
    LabelAtAppend(Bounds(st.intervals), Open(st, end), t);
    if st.currentStart > 0 {
      ClosedPartTiles(st);
      LabelDefined(Bounds(st.intervals), 0, st.currentStart, t);
    }
  }

  /** Finalizing a second leaves the labels of earlier seconds alone. */
  lemma FinalizeKeepsLabel(st: State, t: int)
    requires OpenInvariant(st) && 0 <= t < st.lastSecond
    ensures SettledLabel(FinalizeSecond(st, st.lastSecond), t) == SettledLabel(st, t)
  {
    hide Shape;
    var s := st.lastSecond;
    if st.currentStart < s {
      CloseKeepsLabel(st, s + 1, ENDED, t);
      var d := Decide(st.log, st.current, s);
      DecideFollows(st.log, st.current, s);
      if d.Some? {
        CloseKeepsLabel(st, s, d.value, t);
      }
    }
  }

  lemma FeedKeepsLabel(st: State, gameEnd: int, x: Input, t: int)
    requires Invariant(st) && (st.ended || 0 <= t < st.lastSecond)
    ensures var st' := FeedStep(st, gameEnd, x);
      SettledLabel(st', t) == SettledLabel(st, t) && (st'.ended || 0 <= t < st'.lastSecond)
  {
    hide Shape;
    if x.second > st.lastSecond && !st.ended {
      FinalizeKeepsLabel(st, t);
    }
  }

  lemma {:induction false} RunKeepsLabel(st: State, gameEnd: int, inputs: seq<Input>, t: int)
    requires Invariant(st) && Continues(st, inputs) && (st.ended || 0 <= t < st.lastSecond)
    ensures var st' := Run(st, gameEnd, inputs);
      SettledLabel(st', t) == SettledLabel(st, t) && (st'.ended || 0 <= t < st'.lastSecond)
    decreases |inputs|
  {
    hide Shape;
    if inputs != [] {
      FeedKeepsInvariant(st, gameEnd, inputs[0]);
      FeedKeepsLabel(st, gameEnd, inputs[0], t);
      RunKeepsLabel(FeedStep(st, gameEnd, inputs[0]), gameEnd, inputs[1..], t);
    }
  }

  /** Ending the stream publishes the settled labels. */
  lemma EndPublishes(st: State, gameEnd: int, t: int)
    requires Invariant(st) && 0 <= t <= gameEnd
    requires st.ancient.Some? ==> st.ancient.value <= gameEnd
    ensures LabelAt(Bounds(EndStep(st, gameEnd).intervals), t) == SettledLabel(FinalizeSecond(st, st.lastSecond), t)
  {
    hide Shape;
    EndIsSettled(st, gameEnd);
    var settled := FinalizeSecond(st, st.lastSecond);
    hide FinalizeSecond;
    hide EndStep;
    if !settled.ended && settled.currentStart <= gameEnd {
      CloseKeepsLabel(settled.(lastSecond := st.lastSecond + 1), gameEnd + 1, ENDED, t);
    }
  }

  /** The first input later than `t` settles the label of `t`. */
  lemma FirstLaterSettles(st: State, gameEnd: int, x: Input, t: int)
    requires Invariant(st) && 0 <= t < x.second && (!st.ended ==> st.lastSecond <= t)
    ensures var st1 := FeedStep(st, gameEnd, x);
      SettledLabel(st1, t) == SettledLabel(FinalizeSecond(st, st.lastSecond), t) && (st1.ended || t < st1.lastSecond)
  {
    hide Shape;
    assert st.ended ==> FinalizeSecond(st, st.lastSecond) == st;
    hide FinalizeSecond;
  }

  /** What follows second `t` has no say in its label. */
  lemma LaterInputsAreIrrelevant(st: State, gameEnd: int, later: seq<Input>, t: int)
    requires Invariant(st) && Continues(st, later) && 0 <= t <= gameEnd
    requires st.ancient.Some? ==> st.ancient.value <= gameEnd
    requires !st.ended ==> st.lastSecond <= t
    requires forall i :: 0 <= i < |later| ==> later[i].second > t
    ensures LabelAt(Bounds(EndStep(Run(st, gameEnd, later), gameEnd).intervals), t) ==
              SettledLabel(FinalizeSecond(st, st.lastSecond), t)
  {
    hide Shape;
    hide EndStep;
    hide SettledLabel;
    RunKeepsInvariant(st, gameEnd, later);
    AncientInTime(st, gameEnd, later);
    var last := Run(st, gameEnd, later);
    EndPublishes(last, gameEnd, t);
    if later != [] {
      var st1 := FeedStep(st, gameEnd, later[0]);
      FeedKeepsInvariant(st, gameEnd, later[0]);
      FirstLaterSettles(st, gameEnd, later[0], t);
      hide FeedStep;
      RunKeepsLabel(st1, gameEnd, later[1..], t);
      LastFinalizeKeepsLabel(last, t);
    }
  }

  lemma LastFinalizeKeepsLabel(st: State, t: int)
    requires Invariant(st) && (st.ended || 0 <= t < st.lastSecond)
    ensures SettledLabel(FinalizeSecond(st, st.lastSecond), t) == SettledLabel(st, t)
  {
    hide Shape;
    if !st.ended {
      FinalizeKeepsLabel(st, t);
    }
  }

  lemma {:induction false} UpToIsPrefix(inputs: seq<Input>, t: int)
    requires NonDecreasing(inputs)
    ensures UpTo(inputs, t) <= inputs
    ensures forall x :: x in UpTo(inputs, t) ==> x.second <= t
    ensures forall i :: |UpTo(inputs, t)| <= i < |inputs| ==> inputs[i].second > t
  {
    if inputs != [] {
      UpToIsPrefix(inputs[1..], t);
      if inputs[0].second > t {
        UpToNothing(inputs[1..], t);
      }
    }
  }

  lemma {:induction false} UpToNothing(inputs: seq<Input>, t: int)
    requires forall i :: 0 <= i < |inputs| ==> inputs[i].second > t
    ensures UpTo(inputs, t) == []
  {
    if inputs != [] {
      UpToNothing(inputs[1..], t);
    }
  }

  /** A run over inputs up to second `t` is a state that may still go on. */
  lemma PastIsOpenToLater(gameEnd: int, past: seq<Input>, later: seq<Input>, t: int)
    requires NonDecreasing(past) && NonDecreasing(later) && t >= 0
    requires (forall x :: x in past ==> x.second <= t) && (forall i :: 0 <= i < |later| ==> later[i].second > t)
    ensures var st := Run(INITIAL, gameEnd, past);
      Invariant(st) && st.lastSecond <= t && Continues(st, later) && (st.ancient.Some? ==> st.ancient.value <= gameEnd)
  {
    hide Invariant;
    RunInvariant(gameEnd, past);
    AncientInTime(INITIAL, gameEnd, past);
    RunBounded(INITIAL, gameEnd, past, t);
  }

  /** No look-ahead: cutting the run off after second `t` leaves the label of `t`. */
  lemma NoLookAhead(gameEnd: int, inputs: seq<Input>, t: int)
    requires LegalRun(gameEnd, inputs) && 0 <= t <= gameEnd
    ensures LabelAt(Bounds(Replay(gameEnd, inputs).intervals), t) ==
              LabelAt(Bounds(Replay(gameEnd, UpTo(inputs, t)).intervals), t)
  {
    UpToIsPrefix(inputs, t);
    var past, later := UpTo(inputs, t), inputs[|UpTo(inputs, t)|..];
    assert inputs == past + later;
    RunSplit(INITIAL, gameEnd, past, later);
    PastIsOpenToLater(gameEnd, past, later, t);
    PastIsOpenToLater(gameEnd, past, [], t);
    hide Invariant;
    hide Continues;
    hide UpTo;
    hide EndStep;
    hide SettledLabel;
    var st := Run(INITIAL, gameEnd, past);
    LaterInputsAreIrrelevant(st, gameEnd, later, t);
    LaterInputsAreIrrelevant(st, gameEnd, [], t);
  }

  /** Both together: the label of a second is a function of the bag of inputs at or
      before it, whatever their order inside seconds and whatever comes later. */
  lemma LabelIsCausal(gameEnd: int, xs: seq<Input>, ys: seq<Input>, t: int)
    requires LegalRun(gameEnd, xs) && LegalRun(gameEnd, ys) && 0 <= t <= gameEnd
    requires multiset(UpTo(xs, t)) == multiset(UpTo(ys, t))
    ensures LabelAt(Bounds(Replay(gameEnd, xs).intervals), t) == LabelAt(Bounds(Replay(gameEnd, ys).intervals), t)
  {
    UpToIsPrefix(xs, t);
    UpToIsPrefix(ys, t);
    NoLookAhead(gameEnd, xs, t);
    NoLookAhead(gameEnd, ys, t);
    OrderNeverShows(gameEnd, UpTo(xs, t), UpTo(ys, t));
  }
}
