/** When each edit is accepted, and exactly which intervals it leaves: the contract of the
    editor in terms of the request and the stream alone. */
module EditorOutcomes {
  import opened Wrappers
  import opened Phases
  import opened EventRefs
  import opened EditorSpec
  import opened Splicing
  import opened EditorProperties

  // ---- the words of the contract ----

  /** The reference reads as the bounds, or as the start, of interval `i`. */
  predicate Names(text: string, s: Stream, i: int) {
    && text != "" && 0 <= i < |s|
    && match ParseEventRef(text)
       case None => false
       case Some(Closed(start, end)) => s[i].start == start && s[i].end == end
       case Some(OpenEnd(start)) => s[i].start == start
  }

  ghost predicate NamesNone(text: string, s: Stream) {
    forall i :: !Names(text, s, i)
  }

  /** An interval with new bounds, referenced by them. */
  function Span(start: int, end: int, phase: Phase, roundIndex: int): PhaseInterval {
    PhaseInterval(start, end, phase, roundIndex, "interval@" + Itoa(start) + "-" + Itoa(end))
  }

  /** `out` holds the intervals of `s` but for those gone, and the new ones. */
  ghost predicate Swaps(out: Stream, s: Stream, gone: set<PhaseInterval>, added: set<PhaseInterval>) {
    forall iv :: iv in out <==> (iv in s && iv !in gone) || iv in added
  }

  function LabelAfter(s: Stream, lo: int, hi: int, phase: Phase, t: int): Option<Phase> {
    if lo <= t < hi then Some(phase) else LabelAt(s, t)
  }

  /** With this range under this label some second of Laning would follow another phase
      that follows Laning. */
  ghost predicate Returns(s: Stream, lo: int, hi: int, phase: Phase) {
    exists a, b, c :: a < b < c && LabelAfter(s, lo, hi, phase, a) == Some(Laning) &&
        LabelAfter(s, lo, hi, phase, c) == Some(Laning) &&
        LabelAfter(s, lo, hi, phase, b).Some? && LabelAfter(s, lo, hi, phase, b) != Some(Laning)
  }

  ghost predicate Recolours(out: Stream, s: Stream, lo: int, hi: int, phase: Phase) {
    forall t :: LabelAt(out, t) == LabelAfter(s, lo, hi, phase, t)
  }

  // ---- references ----

  lemma NamesOne(s: Stream, hi: int, text: string)
    requires Tiling(s, 0, hi)
    ensures forall i :: Names(text, s, i) <==> FindByRef(s, text) == Some(i)
    ensures NamesNone(text, s) <==> FindByRef(s, text).None?
  {
    TilingOrdered(s, 0, hi);
    assert forall i, j :: 0 <= i < j < |s| ==> s[i].start != s[j].start by {
      forall i, j | 0 <= i < j < |s| ensures s[i].start != s[j].start { assert s[i].end <= s[j].start; }
    }
    hide ParseEventRef, Tiling;
    var found := FindByRef(s, text);
    if found.Some? { assert Names(text, s, found.value); }
  }

  // ---- splices as swaps ----

  lemma DistinctIntervals(s: Stream, lo: int, hi: int)
    requires Tiling(s, lo, hi)
    ensures forall i, j :: 0 <= i < j < |s| ==> s[i] != s[j]
  {
    TilingOrdered(s, lo, hi);
    forall i, j | 0 <= i < j < |s| ensures s[i] != s[j] { assert s[i].end <= s[j].start; }
  }

  lemma SpliceSwaps(
    s: Stream, hi: int, i: nat, j: nat, mid: Stream, gone: set<PhaseInterval>, added: set<PhaseInterval>)
    requires Tiling(s, 0, hi) && i < j <= |s|
    requires forall iv :: iv in gone <==> iv in s[i..j]
    requires forall iv :: iv in added <==> iv in mid
    ensures Swaps(Splice(s, i, j, mid), s, gone, added)
  {
    DistinctIntervals(s, 0, hi);
    hide Tiling;
    assert s == s[..i] + s[i..j] + s[j..];
    forall k | 0 <= k < i ensures s[k] !in s[i..j] {}
    forall k | j <= k < |s| ensures s[k] !in s[i..j] {}
    forall iv | iv in s[..i] || iv in s[j..] ensures iv !in s[i..j] {}
    var out := Splice(s, i, j, mid);
    assert forall iv :: iv in out <==> iv in s[..i] || iv in mid || iv in s[j..];
    assert forall iv :: iv in s <==> iv in s[..i] || iv in s[i..j] || iv in s[j..];
  }

  // ---- re-entry by seconds ----

  lemma ReentryBySeconds(s: Stream, hi: int)
    requires Tiling(s, 0, hi)
    ensures NoLaningReentry(s) <==> !Returns(s, 0, 0, Laning)
  {
    if !NoLaningReentry(s) {
      var i, j, k :| 0 <= i < j < k < |s| && s[i].phase == Laning && s[k].phase == Laning && s[j].phase != Laning;
      ThreeIntervals(s, hi, i, j, k);
    }
    if Returns(s, 0, 0, Laning) {
      var a, b, c :| a < b < c && LabelAfter(s, 0, 0, Laning, a) == Some(Laning) &&
        LabelAfter(s, 0, 0, Laning, c) == Some(Laning) &&
        LabelAfter(s, 0, 0, Laning, b).Some? && LabelAfter(s, 0, 0, Laning, b) != Some(Laning);
      ThreeSeconds(s, hi, a, b, c);
    }
  }

  lemma ThreeIntervals(s: Stream, hi: int, i: nat, j: nat, k: nat)
    requires Tiling(s, 0, hi) && i < j < k < |s|
    requires s[i].phase == Laning && s[k].phase == Laning && s[j].phase != Laning
    ensures Returns(s, 0, 0, Laning)
  {
    TilingOrdered(s, 0, hi);
    LabelAtIndex(s, 0, hi, i, s[i].start);
    LabelAtIndex(s, 0, hi, j, s[j].start);
    LabelAtIndex(s, 0, hi, k, s[k].start);
    hide LabelAt, Tiling;
    assert s[i].end <= s[j].start && s[j].end <= s[k].start;
    assert LabelAfter(s, 0, 0, Laning, s[i].start) == Some(Laning);
    assert LabelAfter(s, 0, 0, Laning, s[j].start) == Some(s[j].phase);
    assert LabelAfter(s, 0, 0, Laning, s[k].start) == Some(Laning);
  }

  lemma ThreeSeconds(s: Stream, hi: int, a: int, b: int, c: int)
    requires Tiling(s, 0, hi) && a < b < c
    requires LabelAt(s, a) == Some(Laning) && LabelAt(s, c) == Some(Laning)
    requires LabelAt(s, b).Some? && LabelAt(s, b) != Some(Laning)
    ensures !NoLaningReentry(s)
  {
    LabelDefined(s, 0, hi, a);
    LabelDefined(s, 0, hi, b);
    LabelDefined(s, 0, hi, c);
    var i := Locate(s, 0, hi, a);
    var j := Locate(s, 0, hi, b);
    var k := Locate(s, 0, hi, c);
    LabelAtIndex(s, 0, hi, i, a);
    LabelAtIndex(s, 0, hi, j, b);
    LabelAtIndex(s, 0, hi, k, c);
    TilingOrdered(s, 0, hi);
    hide LabelAt, Tiling;
    assert i <= j <= k;
  }

  /** The labels of an edited stream decide whether validation objects. */
  lemma RejectedWhen(s: Stream, req: EditRequest, lo: int, hi: int, phase: Phase)
    requires SoundStream(s, req.eligible) && Transform(s, req).Ok?
    requires Recolours(Transform(s, req).value, s, lo, hi, phase)
    ensures Apply(s, req) == if Returns(s, lo, hi, phase) then Err(LaningReentry) else Transform(s, req)
  {
    GuardsSuffice(s, req);
    hide Apply, Transform;
    var out := Transform(s, req).value;
    ReentryBySeconds(out, req.eligible);
    SameReturns(out, s, lo, hi, phase);
  }

  lemma SameReturns(out: Stream, s: Stream, lo: int, hi: int, phase: Phase)
    requires Recolours(out, s, lo, hi, phase)
    ensures Returns(out, 0, 0, Laning) <==> Returns(s, lo, hi, phase)
  {
    assert forall t :: LabelAfter(out, 0, 0, Laning, t) == LabelAfter(s, lo, hi, phase, t);
    hide LabelAfter;
  }

  // ---- accept ----

  /** Accepting succeeds just when the reference names an interval, and changes nothing. */
  lemma AcceptOutcome(s: Stream, req: EditRequest)
    requires ValidStream(s, req.eligible) && req.op == Accept
    ensures Apply(s, req).Ok? <==> exists i :: Names(req.eventRef, s, i)
    ensures Apply(s, req) == if NamesNone(req.eventRef, s) then Err(Stale(req.eventRef)) else Ok(s)
  {
    NamesOne(s, req.eligible, req.eventRef);
    ApplyIs(s, req);
    hide Names, FindByRef, Apply, ValidStream;
    if FindByRef(s, req.eventRef).Some? {
      assert Names(req.eventRef, s, FindByRef(s, req.eventRef).value);
      NeverRejected(s, req);
    }
  }

  /** On a valid stream the editor refuses what the operation refuses. */
  lemma ApplyIs(s: Stream, req: EditRequest)
    requires ValidStream(s, req.eligible)
    ensures req.eligible > 0 && SoundStream(s, req.eligible)
    ensures Transform(s, req).Err? ==> Apply(s, req) == Err(Transform(s, req).error)
  {
    TilingOrdered(s, 0, req.eligible);
    SortKeepsTiling(s, 0, req.eligible);
    hide Transform, SortByStart;
  }

  /** A label-keeping operation that splices is accepted and swaps what it splices. */
  lemma AppliedSplice(
    s: Stream, req: EditRequest, i: nat, j: nat, mid: Stream, gone: set<PhaseInterval>, added: set<PhaseInterval>)
    requires ValidStream(s, req.eligible) && KeepsLabels(req) && i < j <= |s|
    requires Transform(s, req) == Ok(Splice(s, i, j, mid))
    requires (forall iv :: iv in gone <==> iv in s[i..j]) && (forall iv :: iv in added <==> iv in mid)
    ensures Apply(s, req).Ok? && Swaps(Apply(s, req).value, s, gone, added)
  {
    hide Apply, Transform, Splice, NoLaningReentry, Swaps, KeepsLabels;
    NeverRejected(s, req);
    SpliceSwaps(s, req.eligible, i, j, mid, gone, added);
  }

  lemma AppliedPair(s: Stream, req: EditRequest, l: nat, mid: Stream, added: set<PhaseInterval>)
    requires ValidStream(s, req.eligible) && KeepsLabels(req) && l + 1 < |s|
    requires Transform(s, req) == Ok(Splice(s, l, l + 2, mid)) && (forall iv :: iv in added <==> iv in mid)
    ensures Apply(s, req).Ok? && Swaps(Apply(s, req).value, s, {s[l], s[l + 1]}, added)
  {
    hide *;
    assert s[l..l + 2] == [s[l], s[l + 1]];
    AppliedSplice(s, req, l, l + 2, mid, {s[l], s[l + 1]}, added);
  }

  // ---- split ----

  predicate Splittable(s: Stream, i: int, req: EditRequest) {
    && Names(req.eventRef, s, i)
    && req.splitSecond.Some? && s[i].start < req.splitSecond.value < s[i].end
  }

  /** Splitting succeeds just when the second lies strictly inside the named interval, and
      puts its two parts in its place. */
  lemma SplitOutcome(s: Stream, req: EditRequest)
    requires ValidStream(s, req.eligible) && req.op == Split
    ensures Apply(s, req).Ok? <==> exists i :: Splittable(s, i, req)
    ensures forall i :: Splittable(s, i, req) ==>
      var at := req.splitSecond.value;
      Apply(s, req).Ok? && Swaps(Apply(s, req).value, s, {s[i]},
        {Span(s[i].start, at, s[i].phase, s[i].roundIndex), Span(at, s[i].end, s[i].phase, s[i].roundIndex)})
    ensures NamesNone(req.eventRef, s) <==> Apply(s, req) == Err(Stale(req.eventRef))
  {
    ApplyIs(s, req);
    NamesOne(s, req.eligible, req.eventRef);
    var found := FindByRef(s, req.eventRef);
    hide Names, FindByRef, Apply, ValidStream, SoundStream, Transform, Swaps;
    if found.Some? && Splittable(s, found.value, req) {
      SplitDone(s, req, found.value);
    } else {
      SplitRefused(s, req);
    }
  }

  lemma SplitRefused(s: Stream, req: EditRequest)
    requires req.op == Split
    requires var found := FindByRef(s, req.eventRef);
      found.None? || req.splitSecond.None? || !(s[found.value].start < req.splitSecond.value < s[found.value].end)
    ensures Transform(s, req).Err?
    ensures Transform(s, req) == Err(Stale(req.eventRef)) <==> FindByRef(s, req.eventRef).None?
  {
    SplitIs(s, req);
    hide Transform, FindByRef, BoundsRef;
  }

  lemma SplitDone(s: Stream, req: EditRequest, i: nat)
    requires ValidStream(s, req.eligible) && req.op == Split && FindByRef(s, req.eventRef) == Some(i)
    requires i < |s| && req.splitSecond.Some? && s[i].start < req.splitSecond.value < s[i].end
    ensures var at := req.splitSecond.value;
      Apply(s, req).Ok? && Swaps(Apply(s, req).value, s, {s[i]},
        {Span(s[i].start, at, s[i].phase, s[i].roundIndex), Span(at, s[i].end, s[i].phase, s[i].roundIndex)})
  {
    SplitSplices(s, req, i);
    SplitIs(s, req);
    var at := req.splitSecond.value;
    SpanIs(s[i].(end := at));
    SpanIs(s[i].(start := at));
    var x, y := WithRef(s[i].(end := at)), WithRef(s[i].(start := at));
    assert KeepsLabels(req);
    hide *;
    AppliedSplice(s, req, i, i + 1, [x, y], {s[i]}, {x, y});
  }

  lemma SpanIs(iv: PhaseInterval)
    ensures WithRef(iv) == Span(iv.start, iv.end, iv.phase, iv.roundIndex)
  {}

  lemma SplitSplices(s: Stream, req: EditRequest, i: nat)
    requires FindByRef(s, req.eventRef) == Some(i) && i < |s|
    requires req.splitSecond.Some? && s[i].start < req.splitSecond.value < s[i].end
    ensures var at := req.splitSecond.value;
      SplitOp(s, req) == Ok(Splice(s, i, i + 1, [WithRef(s[i].(end := at)), WithRef(s[i].(start := at))]))
  {
    hide FindByRef, WithRef;
  }

  // ---- move ----

  /** The new bounds of the shared boundary and of its two sides. */
  predicate Shifts(s: Stream, left: int, at: int) {
    0 <= left < |s| - 1 && s[left].start < at < s[left + 1].end
  }

  /** One bound of the named interval, between it and a neighbour, moves strictly inside
      the two; the label stays. */
  predicate Movable(s: Stream, i: int, req: EditRequest) {
    && Names(req.eventRef, s, i) && req.effective.Some?
    && var iv := req.effective.value;
       && (iv.phase == NO_LABEL || iv.phase == s[i].phase)
       && ((iv.start != s[i].start && iv.end == s[i].end && Shifts(s, i - 1, iv.start))
           || (iv.start == s[i].start && iv.end != s[i].end && Shifts(s, i, iv.end)))
  }

  /** The interval left of the moved boundary, and where the boundary goes. */
  function MovedLeft(s: Stream, i: int, iv: PhaseInterval): int
    requires 0 <= i < |s|
  {
    if iv.start != s[i].start then i - 1 else i
  }

  function MovedTo(s: Stream, i: int, iv: PhaseInterval): int
    requires 0 <= i < |s|
  {
    if iv.start != s[i].start then iv.start else iv.end
  }

  lemma MoveOutcome(s: Stream, req: EditRequest)
    requires ValidStream(s, req.eligible) && req.op == Move
    ensures Apply(s, req).Ok? <==> exists i :: Movable(s, i, req)
    ensures forall i :: Movable(s, i, req) ==>
      var l, at := MovedLeft(s, i, req.effective.value), MovedTo(s, i, req.effective.value);
      Apply(s, req).Ok? && Swaps(Apply(s, req).value, s, {s[l], s[l + 1]},
        {Span(s[l].start, at, s[l].phase, s[l].roundIndex),
         Span(at, s[l + 1].end, s[l + 1].phase, s[l + 1].roundIndex)})
    ensures NamesNone(req.eventRef, s) <==> Apply(s, req) == Err(Stale(req.eventRef))
  {
    hide *;
    ApplyIs(s, req);
    MovableIs(s, req);
    var found := FindByRef(s, req.eventRef);
    if found.Some? && Movable(s, found.value, req) {
      MoveDone(s, req, found.value);
    } else {
      MoveRefused(s, req);
    }
  }

  lemma MovableIs(s: Stream, req: EditRequest)
    requires ValidStream(s, req.eligible)
    ensures forall i :: Movable(s, i, req) ==> FindByRef(s, req.eventRef) == Some(i)
    ensures NamesNone(req.eventRef, s) <==> FindByRef(s, req.eventRef).None?
    ensures forall i :: FindByRef(s, req.eventRef) == Some(i) ==> Names(req.eventRef, s, i)
  {
    NamesOne(s, req.eligible, req.eventRef);
    hide Names, NamesNone, ValidStream;
  }

  lemma MoveRefused(s: Stream, req: EditRequest)
    requires req.op == Move
    requires var found := FindByRef(s, req.eventRef);
      found.Some? ==> Names(req.eventRef, s, found.value) && !Movable(s, found.value, req)
    ensures Transform(s, req).Err?
    ensures Transform(s, req) == Err(Stale(req.eventRef)) <==> FindByRef(s, req.eventRef).None?
  {
    MoveIs(s, req);
    hide Transform, FindByRef, BoundsRef, Names;
  }

  lemma MoveSplices(s: Stream, req: EditRequest, i: nat)
    requires FindByRef(s, req.eventRef) == Some(i) && Movable(s, i, req)
    ensures var l, at := MovedLeft(s, i, req.effective.value), MovedTo(s, i, req.effective.value);
      Shifts(s, l, at) && MoveOp(s, req) ==
        Ok(Splice(s, l, l + 2, [WithRef(s[l].(end := at)), WithRef(s[l + 1].(start := at))]))
  {
    hide FindByRef, WithRef, Names, Splice;
    var l, at := MovedLeft(s, i, req.effective.value), MovedTo(s, i, req.effective.value);
    UpdateTwoIsSplice(s, l, WithRef(s[l].(end := at)), WithRef(s[l + 1].(start := at)));
  }

  lemma MoveDone(s: Stream, req: EditRequest, i: nat)
    requires ValidStream(s, req.eligible) && req.op == Move && FindByRef(s, req.eventRef) == Some(i)
    requires Movable(s, i, req)
    ensures var l, at := MovedLeft(s, i, req.effective.value), MovedTo(s, i, req.effective.value);
      Apply(s, req).Ok? && 0 <= l < |s| - 1 && Swaps(Apply(s, req).value, s, {s[l], s[l + 1]},
        {Span(s[l].start, at, s[l].phase, s[l].roundIndex),
         Span(at, s[l + 1].end, s[l + 1].phase, s[l + 1].roundIndex)})
  {
    MoveSplices(s, req, i);
    MoveIs(s, req);
    var l, at := MovedLeft(s, i, req.effective.value), MovedTo(s, i, req.effective.value);
    assert 0 <= l < |s| - 1;
    var x, y := WithRef(s[l].(end := at)), WithRef(s[l + 1].(start := at));
    SpanIs(s[l].(end := at));
    SpanIs(s[l + 1].(start := at));
    assert KeepsLabels(req);
    hide *;
    AppliedPair(s, req, l, [x, y], {x, y});
  }

  // ---- delete ----

  /** The target and an adjacent absorber, both named. */
  predicate Absorbable(s: Stream, i: int, a: int, req: EditRequest) {
    Names(req.eventRef, s, i) && Names(req.absorbInto, s, a) && (a == i - 1 || a == i + 1)
  }

  lemma DeleteOutcome(s: Stream, req: EditRequest)
    requires ValidStream(s, req.eligible) && req.op == Delete
    ensures Apply(s, req).Ok? <==> exists i, a :: Absorbable(s, i, a, req)
    ensures forall i, a :: Absorbable(s, i, a, req) ==>
      var l := if a < i then a else i;
      Apply(s, req).Ok? && Swaps(Apply(s, req).value, s, {s[l], s[l + 1]},
        {Span(s[l].start, s[l + 1].end, s[a].phase, s[a].roundIndex)})
    ensures req.absorbInto != "" && (NamesNone(req.eventRef, s) || NamesNone(req.absorbInto, s)) <==>
              Apply(s, req).Err? && Apply(s, req).error.Stale?
  {
    hide *;
    ApplyIs(s, req);
    AbsorbableIs(s, req);
    var found, into := FindByRef(s, req.eventRef), FindByRef(s, req.absorbInto);
    if found.Some? && into.Some? && (into.value + 1 == found.value || into.value == found.value + 1) {
      assert Absorbable(s, found.value, into.value, req);
      DeleteDone(s, req, found.value, into.value);
    } else {
      DeleteRefused(s, req);
    }
  }

  lemma AbsorbableIs(s: Stream, req: EditRequest)
    requires ValidStream(s, req.eligible)
    ensures var found, into := FindByRef(s, req.eventRef), FindByRef(s, req.absorbInto);
      && (forall i, a :: Absorbable(s, i, a, req) <==>
            found == Some(i) && into == Some(a) && (a == i - 1 || a == i + 1))
      && (into.Some? ==> req.absorbInto != "")
      && (NamesNone(req.eventRef, s) <==> found.None?) && (NamesNone(req.absorbInto, s) <==> into.None?)
  {
    NamesOne(s, req.eligible, req.eventRef);
    NamesOne(s, req.eligible, req.absorbInto);
    hide Names, NamesNone, ValidStream;
  }

  lemma DeleteRefused(s: Stream, req: EditRequest)
    requires SoundStream(s, req.eligible) && req.op == Delete
    requires var found, into := FindByRef(s, req.eventRef), FindByRef(s, req.absorbInto);
      found.Some? && into.Some? ==> into.value != found.value - 1 && into.value != found.value + 1
    ensures Transform(s, req).Err?
    ensures Transform(s, req).error.Stale? <==>
      req.absorbInto != "" && (FindByRef(s, req.eventRef).None? || FindByRef(s, req.absorbInto).None?)
  {
    DeleteIs(s, req);
    hide Transform, FindByRef, BoundsRef;
    var found, into := FindByRef(s, req.eventRef), FindByRef(s, req.absorbInto);
    if found.Some? && into.Some? {
      if s[into.value].end == s[found.value].start { TilingStep(s, 0, req.eligible, into.value, found.value); }
      if s[found.value].end == s[into.value].start { TilingStep(s, 0, req.eligible, found.value, into.value); }
    }
  }

  lemma DeleteDone(s: Stream, req: EditRequest, i: nat, a: nat)
    requires ValidStream(s, req.eligible) && req.op == Delete
    requires FindByRef(s, req.eventRef) == Some(i) && FindByRef(s, req.absorbInto) == Some(a) && req.absorbInto != ""
    requires i < |s| && a < |s| && (a == i - 1 || a == i + 1)
    ensures var l := if a < i then a else i;
      Apply(s, req).Ok? && Swaps(Apply(s, req).value, s, {s[l], s[l + 1]},
        {Span(s[l].start, s[l + 1].end, s[a].phase, s[a].roundIndex)})
  {
    var l := if a < i then a else i;
    var joined := Span(s[l].start, s[l + 1].end, s[a].phase, s[a].roundIndex);
    DeleteGives(s, req, i, a);
    assert KeepsLabels(req);
    hide *;
    AppliedPair(s, req, l, [joined], {joined});
  }

  lemma DeleteGives(s: Stream, req: EditRequest, i: nat, a: nat)
    requires ValidStream(s, req.eligible) && req.op == Delete
    requires FindByRef(s, req.eventRef) == Some(i) && FindByRef(s, req.absorbInto) == Some(a) && req.absorbInto != ""
    requires i < |s| && a < |s| && (a == i - 1 || a == i + 1)
    ensures var l := if a < i then a else i;
      Transform(s, req) == Ok(Splice(s, l, l + 2, [Span(s[l].start, s[l + 1].end, s[a].phase, s[a].roundIndex)]))
  {
    DeleteIs(s, req);
    hide Transform, FindByRef, Without, WithRef, Span, Splice, NoLaningReentry, AllOfficial;
    if a < i {
      assert s[a].end == s[i].start;
      SpanIs(s[a].(end := s[i].end));
      AbsorbLeft(s, a, WithRef(s[a].(end := s[i].end)));
    } else {
      assert s[i].end == s[a].start && s[a].end != s[i].start;
      SpanIs(s[a].(start := s[i].start));
      AbsorbRight(s, i, WithRef(s[a].(start := s[i].start)));
    }
  }

  // ---- relabel ----

  /** An operation that splices and relabels one range is accepted unless Laning returns. */
  lemma RelabellingSplice(
    s: Stream, req: EditRequest, i: nat, j: nat, mid: Stream, gone: set<PhaseInterval>, added: set<PhaseInterval>,
    lo: int, hi: int, phase: Phase)
    requires ValidStream(s, req.eligible) && i < j <= |s| && Transform(s, req) == Ok(Splice(s, i, j, mid))
    requires Recolours(Transform(s, req).value, s, lo, hi, phase)
    requires (forall iv :: iv in gone <==> iv in s[i..j]) && (forall iv :: iv in added <==> iv in mid)
    ensures Apply(s, req) == Err(LaningReentry) <==> Returns(s, lo, hi, phase)
    ensures !Returns(s, lo, hi, phase) ==> Apply(s, req).Ok? && Swaps(Apply(s, req).value, s, gone, added)
    ensures Apply(s, req).Err? ==> Apply(s, req) == Err(LaningReentry)
  {
    ApplyIs(s, req);
    hide Apply, Transform, Splice, NoLaningReentry, Swaps, Returns, LabelAt, LabelAfter, SoundStream;
    RejectedWhen(s, req, lo, hi, phase);
    SpliceSwaps(s, req.eligible, i, j, mid, gone, added);
  }

  predicate Relabelable(s: Stream, i: int, req: EditRequest) {
    && Names(req.eventRef, s, i) && req.effective.Some?
    && var iv := req.effective.value;
       iv.start == s[i].start && iv.end == s[i].end && Official(iv.phase)
  }

  /** Relabelling succeeds just when the named interval keeps its bounds, the label is
      official and Laning does not return. */
  lemma RelabelOutcome(s: Stream, req: EditRequest)
    requires ValidStream(s, req.eligible) && req.op == Relabel
    ensures Apply(s, req).Ok? <==>
              exists i :: Relabelable(s, i, req) && !Returns(s, s[i].start, s[i].end, req.effective.value.phase)
    ensures forall i :: Relabelable(s, i, req) ==>
      var phase := req.effective.value.phase;
      if Returns(s, s[i].start, s[i].end, phase) then Apply(s, req) == Err(LaningReentry)
      else Apply(s, req).Ok? && Swaps(Apply(s, req).value, s, {s[i]},
             {Span(s[i].start, s[i].end, phase, s[i].roundIndex)})
    ensures NamesNone(req.eventRef, s) <==> Apply(s, req) == Err(Stale(req.eventRef))
  {
    hide *;
    ApplyIs(s, req);
    RelabelableIs(s, req);
    var found := FindByRef(s, req.eventRef);
    if found.Some? && Relabelable(s, found.value, req) {
      RelabelDone(s, req, found.value);
    } else {
      RelabelRefused(s, req);
    }
  }

  lemma RelabelableIs(s: Stream, req: EditRequest)
    requires ValidStream(s, req.eligible)
    ensures forall i :: Relabelable(s, i, req) ==> FindByRef(s, req.eventRef) == Some(i)
    ensures NamesNone(req.eventRef, s) <==> FindByRef(s, req.eventRef).None?
    ensures forall i :: FindByRef(s, req.eventRef) == Some(i) ==> Names(req.eventRef, s, i)
  {
    NamesOne(s, req.eligible, req.eventRef);
    hide Names, NamesNone, ValidStream;
  }

  lemma RelabelRefused(s: Stream, req: EditRequest)
    requires req.op == Relabel
    requires var found := FindByRef(s, req.eventRef);
      found.Some? ==> Names(req.eventRef, s, found.value) && !Relabelable(s, found.value, req)
    ensures Transform(s, req).Err?
    ensures Transform(s, req) == Err(Stale(req.eventRef)) <==> FindByRef(s, req.eventRef).None?
  {
    RelabelIs(s, req);
    hide Transform, FindByRef, BoundsRef, Names;
  }

  lemma RelabelIs(s: Stream, req: EditRequest)
    requires req.op == Relabel
    ensures Transform(s, req) == RelabelOp(s, req)
  {}

  lemma RelabelDone(s: Stream, req: EditRequest, i: nat)
    requires ValidStream(s, req.eligible) && req.op == Relabel && FindByRef(s, req.eventRef) == Some(i)
    requires Relabelable(s, i, req)
    ensures i < |s|
    ensures var phase := req.effective.value.phase;
      if Returns(s, s[i].start, s[i].end, phase) then Apply(s, req) == Err(LaningReentry)
      else Apply(s, req).Ok? && Swaps(Apply(s, req).value, s, {s[i]},
             {Span(s[i].start, s[i].end, phase, s[i].roundIndex)})
  {
    var phase := req.effective.value.phase;
    var iv := WithRef(s[i].(phase := phase));
    RelabelIs(s, req);
    SpanIs(s[i].(phase := phase));
    assert Transform(s, req) == Ok(Splice(s, i, i + 1, [iv])) by {
      hide Transform, FindByRef, BoundsRef;
      UpdateIsSplice(s, i, iv);
    }
    RelabelledLabels(s, req);
    hide *;
    RelabellingSplice(s, req, i, i + 1, [iv], {s[i]}, {iv}, s[i].start, s[i].end, phase);
  }

  lemma RelabelledLabels(s: Stream, req: EditRequest)
    requires SoundStream(s, req.eligible) && Transform(s, req).Ok? && req.op == Relabel
    ensures var iv := req.effective.value; Recolours(Transform(s, req).value, s, iv.start, iv.end, iv.phase)
  {
    var iv := req.effective.value;
    forall t ensures LabelAt(Transform(s, req).value, t) == LabelAfter(s, iv.start, iv.end, iv.phase, t) {
      RelabelMeans(s, req, t);
      hide LabelAt, Transform;
    }
  }

  // ---- add ----

  /** The range has an official label and lies inside interval `i`. */
  predicate Addable(s: Stream, i: int, req: EditRequest) {
    && 0 <= i < |s| && req.effective.Some?
    && var iv := req.effective.value;
       Official(iv.phase) && iv.start < iv.end && s[i].start <= iv.start && iv.end <= s[i].end
  }

  /** The range under its label, and what is left of the interval on either side. */
  function Parts(outer: PhaseInterval, iv: PhaseInterval): set<PhaseInterval> {
    {Span(iv.start, iv.end, iv.phase, outer.roundIndex)}
    + (if outer.start < iv.start then {Span(outer.start, iv.start, outer.phase, outer.roundIndex)} else {})
    + (if iv.end < outer.end then {Span(iv.end, outer.end, outer.phase, outer.roundIndex)} else {})
  }

  /** Adding succeeds just when the range lies inside one interval, its label is official
      and Laning does not return. */
  lemma AddOutcome(s: Stream, req: EditRequest)
    requires ValidStream(s, req.eligible) && req.op == Add
    ensures Apply(s, req).Ok? <==>
              (exists i :: Addable(s, i, req)) &&
              !Returns(s, req.effective.value.start, req.effective.value.end, req.effective.value.phase)
    ensures forall i :: Addable(s, i, req) ==>
      var iv := req.effective.value;
      if Returns(s, iv.start, iv.end, iv.phase) then Apply(s, req) == Err(LaningReentry)
      else Apply(s, req).Ok? && Swaps(Apply(s, req).value, s, {s[i]}, Parts(s[i], iv))
  {
    hide *;
    ApplyIs(s, req);
    AddableIs(s, req);
    var i := Coverer(s, req);
    if Addable(s, i, req) {
      AddDone(s, req, i);
    } else {
      AddRefused(s, req);
    }
  }

  /** The interval that covers the requested range, or -1. */
  function Coverer(s: Stream, req: EditRequest): int {
    if req.effective.None? then -1
    else
      match FindCover(s, req.effective.value, 0)
      case None => -1
      case Some(c) => c
  }

  lemma AddableIs(s: Stream, req: EditRequest)
    requires ValidStream(s, req.eligible)
    ensures forall i :: Addable(s, i, req) ==> i == Coverer(s, req)
  {
    TilingOrdered(s, 0, req.eligible);
    forall i | Addable(s, i, req) ensures i == Coverer(s, req) {
      var iv := req.effective.value;
      var found := FindCover(s, iv, 0);
      assert Contains(s[i], iv);
    }
  }

  lemma AddRefused(s: Stream, req: EditRequest)
    requires ValidStream(s, req.eligible) && req.op == Add && !Addable(s, Coverer(s, req), req)
    ensures Transform(s, req).Err?
  {
    AddIs(s, req);
    hide Transform, BoundsRef, Part;
  }

  lemma AddDone(s: Stream, req: EditRequest, i: int)
    requires ValidStream(s, req.eligible) && req.op == Add && i == Coverer(s, req) && Addable(s, i, req)
    ensures var iv := req.effective.value;
      if Returns(s, iv.start, iv.end, iv.phase) then Apply(s, req) == Err(LaningReentry)
      else Apply(s, req).Ok? && 0 <= i < |s| && Swaps(Apply(s, req).value, s, {s[i]}, Parts(s[i], iv))
  {
    var iv := req.effective.value;
    var mid := AddGives(s, req, i);
    AddedLabels(s, req);
    hide *;
    RelabellingSplice(s, req, i, i + 1, mid, {s[i]}, Parts(s[i], iv), iv.start, iv.end, iv.phase);
  }

  lemma AddGives(s: Stream, req: EditRequest, i: nat) returns (mid: Stream)
    requires ValidStream(s, req.eligible) && req.op == Add && i == Coverer(s, req) && Addable(s, i, req)
    ensures i < |s| && Transform(s, req) == Ok(Splice(s, i, i + 1, mid))
    ensures s[i..i + 1] == [s[i]]
    ensures forall iv :: iv in Parts(s[i], req.effective.value) <==> iv in mid
  {
    AddRuns(s, req, i);
    hide *;
    AddIs(s, req);
    var iv := req.effective.value;
    assert s[i..i + 1] == [s[i]];
    if iv.start == s[i].start && iv.end == s[i].end {
      mid := [WithRef(s[i].(phase := iv.phase))];
      UpdateIsSplice(s, i, mid[0]);
      SpanIs(s[i].(phase := iv.phase));
      WholePart(s[i], iv);
    } else {
      mid := Part(s[i].start, iv.start, s[i].phase, s[i].roundIndex) + Part(iv.start, iv.end, iv.phase, s[i].roundIndex)
        + Part(iv.end, s[i].end, s[i].phase, s[i].roundIndex);
      SpliceIs(s, i, mid);
      ThreeParts(s[i], iv);
    }
  }

  lemma SpliceIs(s: Stream, i: nat, mid: Stream)
    requires i < |s|
    ensures Splice(s, i, i + 1, mid) == s[..i] + mid + s[i + 1..]
  {}

  /** What adding does once its guards have passed. */
  lemma AddRuns(s: Stream, req: EditRequest, i: nat)
    requires ValidStream(s, req.eligible) && req.op == Add && i == Coverer(s, req) && Addable(s, i, req)
    ensures i < |s| && req.effective.Some? && req.effective.value.start < req.effective.value.end
    ensures var iv := req.effective.value;
      AddOp(s, req) ==
        if iv.start == s[i].start && iv.end == s[i].end then Ok(s[i := WithRef(s[i].(phase := iv.phase))])
        else Ok(s[..i]
                + (Part(s[i].start, iv.start, s[i].phase, s[i].roundIndex)
                   + Part(iv.start, iv.end, iv.phase, s[i].roundIndex)
                   + Part(iv.end, s[i].end, s[i].phase, s[i].roundIndex))
                + s[i + 1..])
  {
    TilingOrdered(s, 0, req.eligible);
    hide Tiling, NoLaningReentry, Part, WithRef, FindCover;
  }

  lemma WholePart(outer: PhaseInterval, iv: PhaseInterval)
    requires iv.start == outer.start && iv.end == outer.end
    ensures Parts(outer, iv) == {Span(outer.start, outer.end, iv.phase, outer.roundIndex)}
  {
    hide Span;
  }

  lemma PartIs(start: int, end: int, phase: Phase, roundIndex: int)
    ensures Part(start, end, phase, roundIndex) == if start < end then [Span(start, end, phase, roundIndex)] else []
  {
    SpanIs(PhaseInterval(start, end, phase, roundIndex, ""));
    hide WithRef, Span;
  }

  lemma ThreeParts(outer: PhaseInterval, iv: PhaseInterval)
    requires iv.start < iv.end
    ensures var mid := Part(outer.start, iv.start, outer.phase, outer.roundIndex)
                       + Part(iv.start, iv.end, iv.phase, outer.roundIndex)
                       + Part(iv.end, outer.end, outer.phase, outer.roundIndex);
      forall x :: x in Parts(outer, iv) <==> x in mid
  {
    PartIs(outer.start, iv.start, outer.phase, outer.roundIndex);
    PartIs(iv.start, iv.end, iv.phase, outer.roundIndex);
    PartIs(iv.end, outer.end, outer.phase, outer.roundIndex);
    hide Part, Span;
  }

  lemma AddedLabels(s: Stream, req: EditRequest)
    requires ValidStream(s, req.eligible) && req.op == Add && Addable(s, Coverer(s, req), req)
    ensures Transform(s, req).Ok?
    ensures var iv := req.effective.value; Recolours(Transform(s, req).value, s, iv.start, iv.end, iv.phase)
  {
    var iv := req.effective.value;
    var mid := AddGives(s, req, Coverer(s, req));
    forall t ensures LabelAt(Transform(s, req).value, t) == LabelAfter(s, iv.start, iv.end, iv.phase, t) {
      AddMeans(s, req, t);
      hide LabelAt, Transform;
    }
  }

  // ---- merge ----

  /** Two adjacent named intervals, and no label or an official one. */
  predicate Mergeable(s: Stream, a: int, b: int, req: EditRequest) {
    && Names(req.eventRef, s, a) && Names(req.mergeRight, s, b) && (b == a - 1 || b == a + 1)
    && (req.effective.Some? && req.effective.value.phase != NO_LABEL ==> Official(req.effective.value.phase))
  }

  function Requested(req: EditRequest, left: PhaseInterval): Phase {
    if req.effective.None? || req.effective.value.phase == NO_LABEL then left.phase else req.effective.value.phase
  }

  /** Merging succeeds just when both references name adjacent intervals, the label is
      official or absent, and Laning does not return. */
  lemma MergeOutcome(s: Stream, req: EditRequest)
    requires ValidStream(s, req.eligible) && req.op == Merge
    ensures Apply(s, req).Ok? <==> exists a, b :: Mergeable(s, a, b, req) && MergesInto(s, if a < b then a else b, req)
    ensures forall a, b :: Mergeable(s, a, b, req) ==>
      var l := if a < b then a else b;
      var phase := Requested(req, s[l]);
      if Returns(s, s[l].start, s[l + 1].end, phase) then Apply(s, req) == Err(LaningReentry)
      else Apply(s, req).Ok? && Swaps(Apply(s, req).value, s, {s[l], s[l + 1]},
             {Span(s[l].start, s[l + 1].end, phase, s[l].roundIndex)})
    ensures NamesNone(req.eventRef, s) || NamesNone(req.mergeRight, s) <==>
              Apply(s, req).Err? && Apply(s, req).error.Stale?
  {
    hide *;
    ApplyIs(s, req);
    MergeableIs(s, req);
    var a, b := FindByRef(s, req.eventRef), FindByRef(s, req.mergeRight);
    if a.Some? && b.Some? && Mergeable(s, a.value, b.value, req) {
      MergeDone(s, req, a.value, b.value);
    } else {
      MergeRefused(s, req);
    }
  }

  /** Laning does not return when intervals `l` and `l + 1` take the label of the merge. */
  ghost predicate MergesInto(s: Stream, l: int, req: EditRequest) {
    0 <= l < |s| - 1 && !Returns(s, s[l].start, s[l + 1].end, Requested(req, s[l]))
  }

  lemma MergeableIs(s: Stream, req: EditRequest)
    requires ValidStream(s, req.eligible)
    ensures var a, b := FindByRef(s, req.eventRef), FindByRef(s, req.mergeRight);
      && (forall i, k :: Mergeable(s, i, k, req) ==> a == Some(i) && b == Some(k))
      && (NamesNone(req.eventRef, s) <==> a.None?) && (NamesNone(req.mergeRight, s) <==> b.None?)
      && (forall i :: a == Some(i) ==> Names(req.eventRef, s, i))
      && (forall i :: b == Some(i) ==> Names(req.mergeRight, s, i))
  {
    NamesOne(s, req.eligible, req.eventRef);
    NamesOne(s, req.eligible, req.mergeRight);
    hide Names, NamesNone, ValidStream;
  }

  lemma MergeRefused(s: Stream, req: EditRequest)
    requires SoundStream(s, req.eligible) && req.op == Merge
    requires var a, b := FindByRef(s, req.eventRef), FindByRef(s, req.mergeRight);
      a.Some? && b.Some? ==>
        Names(req.eventRef, s, a.value) && Names(req.mergeRight, s, b.value) && !Mergeable(s, a.value, b.value, req)
    ensures Transform(s, req).Err?
    ensures Transform(s, req).error.Stale? <==> FindByRef(s, req.eventRef).None? || FindByRef(s, req.mergeRight).None?
  {
    MergeIs(s, req);
    hide Transform, FindByRef, BoundsRef, Names;
    var a, b := FindByRef(s, req.eventRef), FindByRef(s, req.mergeRight);
    if a.Some? && b.Some? && a != b {
      var l, r := if a.value < b.value then a.value else b.value, if a.value < b.value then b.value else a.value;
      if s[l].end == s[r].start { TilingStep(s, 0, req.eligible, l, r); }
    }
  }

  lemma MergeDone(s: Stream, req: EditRequest, a: nat, b: nat)
    requires ValidStream(s, req.eligible) && req.op == Merge && Mergeable(s, a, b, req)
    requires FindByRef(s, req.eventRef) == Some(a) && FindByRef(s, req.mergeRight) == Some(b)
    ensures a < |s| && b < |s| && (b == a - 1 || b == a + 1)
    ensures var l := if a < b then a else b; MergesInto(s, l, req) <==> Apply(s, req).Ok?
    ensures var l := if a < b then a else b;
      var phase := Requested(req, s[l]);
      if Returns(s, s[l].start, s[l + 1].end, phase) then Apply(s, req) == Err(LaningReentry)
      else Apply(s, req).Ok? && Swaps(Apply(s, req).value, s, {s[l], s[l + 1]},
             {Span(s[l].start, s[l + 1].end, phase, s[l].roundIndex)})
  {
    hide *;
    MergeIsAdjacent(s, req, a, b);
    var l := if a < b then a else b;
    MergesIntoIs(s, l, req);
    MergeGives(s, req, a, b);
    MergedLabels(s, req, a, b);
    var phase := Requested(req, s[l]);
    var joined := Span(s[l].start, s[l + 1].end, phase, s[l].roundIndex);
    assert s[l..l + 2] == [s[l], s[l + 1]];
    RelabellingSplice(s, req, l, l + 2, [joined], {s[l], s[l + 1]}, {joined}, s[l].start, s[l + 1].end, phase);
  }

  lemma MergeIsAdjacent(s: Stream, req: EditRequest, a: nat, b: nat)
    requires Mergeable(s, a, b, req)
    ensures a < |s| && b < |s| && (b == a - 1 || b == a + 1)
  {
    hide Official;
  }

  lemma MergesIntoIs(s: Stream, l: nat, req: EditRequest)
    requires l + 1 < |s|
    ensures MergesInto(s, l, req) <==> !Returns(s, s[l].start, s[l + 1].end, Requested(req, s[l]))
  {
    hide Returns, Requested;
  }

  lemma MergeGives(s: Stream, req: EditRequest, a: nat, b: nat)
    requires ValidStream(s, req.eligible) && req.op == Merge && Mergeable(s, a, b, req)
    requires FindByRef(s, req.eventRef) == Some(a) && FindByRef(s, req.mergeRight) == Some(b)
    ensures a < |s| && b < |s|
    ensures var l := if a < b then a else b;
      l + 1 < |s| && Transform(s, req) ==
        Ok(Splice(s, l, l + 2, [Span(s[l].start, s[l + 1].end, Requested(req, s[l]), s[l].roundIndex)]))
  {
    MergeIs(s, req);
    hide Transform, FindByRef, BoundsRef, Span, Names, NoLaningReentry, WithRef;
    var l := if a < b then a else b;
    assert s[l].end == s[l + 1].start;
    SpanIs(PhaseInterval(s[l].start, s[l + 1].end, Requested(req, s[l]), s[l].roundIndex, ""));
  }

  lemma MergedLabels(s: Stream, req: EditRequest, a: nat, b: nat)
    requires ValidStream(s, req.eligible) && req.op == Merge && Mergeable(s, a, b, req)
    requires FindByRef(s, req.eventRef) == Some(a) && FindByRef(s, req.mergeRight) == Some(b)
    ensures a < |s| && b < |s|
    ensures var l := if a < b then a else b;
      Transform(s, req).Ok? && l + 1 < |s| &&
      Recolours(Transform(s, req).value, s, s[l].start, s[l + 1].end, Requested(req, s[l]))
  {
    MergeGives(s, req, a, b);
    var l := if a < b then a else b;
    assert Requested(req, s[l]) == MergedLabel(s[l], req);
    forall t
      ensures LabelAt(Transform(s, req).value, t) ==
                LabelAfter(s, s[l].start, s[l + 1].end, Requested(req, s[l]), t)
    {
      MergeMeans(s, req, t);
      hide LabelAt, Transform, Splice, Span, Names, FindByRef;
    }
  }

  // ---- the contract is complete ----

  /** No other operation is known. */
  lemma NothingElse(s: Stream, req: EditRequest)
    requires req.op.UnknownOp?
    ensures Apply(s, req).Err?
  {}

  /** The order of the base stream does not matter. */
  lemma BaseIsSorted(base: Stream, req: EditRequest)
    ensures Apply(base, req) == Apply(SortByStart(base), req)
  {
    SortSorts(base);
    SortKeepsOrdered(SortByStart(base));
    hide Transform, StreamFault;
    assert |multiset(base)| == |base|;
    assert |multiset(SortByStart(base))| == |SortByStart(base)|;
  }

  /** A tiling is determined by which intervals it holds, so a swap leaves one stream only. */
  lemma {:induction false} MembersDecide(a: Stream, b: Stream, lo: int, hi: int)
    requires Tiling(a, lo, hi) && Tiling(b, lo, hi) && forall iv :: iv in a <==> iv in b
    ensures a == b
  {
    hide *;
    FirstAlike(a, b, lo, hi);
    RestAlike(a, b, lo, hi);
    if |a| > 1 { MembersDecide(a[1..], b[1..], a[0].end, hi); }
    assert a == [a[0]] + a[1..] && b == [b[0]] + b[1..];
  }

  lemma RestAlike(a: Stream, b: Stream, lo: int, hi: int)
    requires Tiling(a, lo, hi) && Tiling(b, lo, hi) && a[0] == b[0] && forall iv :: iv in a <==> iv in b
    ensures a != [] && b != [] && (|a| == 1 <==> |b| == 1) && forall iv :: iv in a[1..] <==> iv in b[1..]
    ensures |a| > 1 ==> Tiling(a[1..], a[0].end, hi) && Tiling(b[1..], a[0].end, hi)
  {
    RestTiles(a, lo, hi);
    RestTiles(b, lo, hi);
    DistinctIntervals(a, lo, hi);
    DistinctIntervals(b, lo, hi);
    hide Tiling;
    RestMembers(a, b);
    if |a| > 1 { assert a[1..][0] in b[1..]; }
    if |b| > 1 { assert b[1..][0] in a[1..]; }
  }

  lemma RestTiles(s: Stream, lo: int, hi: int)
    requires Tiling(s, lo, hi)
    ensures s != [] && (|s| > 1 ==> Tiling(s[1..], s[0].end, hi))
  {
    if |s| > 1 {
      TilingPart(s, lo, hi, 1, |s|);
      assert s[1..|s|] == s[1..] && s[1].start == s[0].end;
    }
  }

  lemma FirstAlike(a: Stream, b: Stream, lo: int, hi: int)
    requires Tiling(a, lo, hi) && Tiling(b, lo, hi) && forall iv :: iv in a <==> iv in b
    ensures a[0] == b[0]
  {
    assert a[0] in b;
    var k :| 0 <= k < |b| && b[k] == a[0];
    TilingOrdered(b, lo, hi);
  }

  lemma RestMembers(a: Stream, b: Stream)
    requires a != [] && b != [] && a[0] == b[0] && forall iv :: iv in a <==> iv in b
    requires (forall i :: 0 < i < |a| ==> a[i] != a[0]) && (forall i :: 0 < i < |b| ==> b[i] != b[0])
    ensures forall iv :: iv in a[1..] <==> iv in b[1..]
  {
    assert a == [a[0]] + a[1..] && b == [b[0]] + b[1..];
    forall i | 0 <= i < |a[1..]| ensures a[1..][i] != a[0] { assert a[1..][i] == a[i + 1]; }
    forall i | 0 <= i < |b[1..]| ensures b[1..][i] != b[0] { assert b[1..][i] == b[i + 1]; }
    assert forall iv :: iv in a <==> iv == a[0] || iv in a[1..];
    assert forall iv :: iv in b <==> iv == b[0] || iv in b[1..];
  }
}
