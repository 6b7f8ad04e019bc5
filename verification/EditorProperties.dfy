/** What the editor guarantees: the guards of each operation suffice for a tiling, each
    operation changes exactly the seconds it names, and splits can be undone. */
module EditorProperties {
  import opened Wrappers
  import opened Phases
  import opened EventRefs
  import opened EditorSpec
  import opened Splicing

  /** What every stored stream satisfies before an edit. */
  ghost predicate SoundStream(s: Stream, eligible: int) {
    Tiling(s, 0, eligible) && AllOfficial(s)
  }

  // ---- sorting ----

  ghost predicate InOrder(s: Stream) {
    forall i, j :: 0 <= i < j < |s| ==> s[i].start <= s[j].start
  }

  lemma {:induction false} InsertKeeps(s: Stream, iv: PhaseInterval)
    ensures multiset(InsertByStart(s, iv)) == multiset(s) + multiset{iv}
    ensures forall x :: x in InsertByStart(s, iv) ==> x in s || x == iv
  {
    if s != [] && s[|s| - 1].start > iv.start {
      var n := |s| - 1;
      InsertKeeps(s[..n], iv);
      assert s == s[..n] + [s[n]];
    }
  }

  lemma {:induction false} InsertSorts(s: Stream, iv: PhaseInterval)
    requires InOrder(s)
    ensures InOrder(InsertByStart(s, iv))
  {
    if s != [] && s[|s| - 1].start > iv.start {
      var n := |s| - 1;
      InsertSorts(s[..n], iv);
      InsertKeeps(s[..n], iv);
      var t := InsertByStart(s[..n], iv);
      forall k | 0 <= k < |t| ensures t[k].start <= s[n].start {
        assert t[k] in t;
      }
    }
  }

  /** Sorting orders the intervals and keeps each of them. */
  lemma {:induction false} SortSorts(s: Stream)
    ensures InOrder(SortByStart(s)) && multiset(SortByStart(s)) == multiset(s)
  {
    if s != [] {
      var n := |s| - 1;
      SortSorts(s[..n]);
      InsertSorts(SortByStart(s[..n]), s[n]);
      InsertKeeps(SortByStart(s[..n]), s[n]);
      assert s == s[..n] + [s[n]];
    }
  }

  lemma InsertAtEnd(s: Stream, iv: PhaseInterval)
    requires s == [] || s[|s| - 1].start <= iv.start
    ensures InsertByStart(s, iv) == s + [iv]
  {
  }

  lemma {:induction false} SortKeepsOrdered(s: Stream)
    requires InOrder(s)
    ensures SortByStart(s) == s
  {
    hide InsertByStart;
    if s != [] {
      var n := |s| - 1;
      SortKeepsOrdered(s[..n]);
      InsertAtEnd(s[..n], s[n]);
      assert s == s[..n] + [s[n]];
    }
  }

  lemma SortKeepsTiling(s: Stream, lo: int, hi: int)
    requires Tiling(s, lo, hi)
    ensures SortByStart(s) == s
  {
    TilingOrdered(s, lo, hi);
    SortKeepsOrdered(s);
  }

  // ---- validation ----

  ghost predicate SeenLaning(s: Stream, i: nat) {
    exists j :: 0 <= j < i <= |s| && s[j].phase == Laning
  }

  ghost predicate LeftLaning(s: Stream, i: nat) {
    exists j, k :: 0 <= j < k < i <= |s| && s[j].phase == Laning && s[k].phase != Laning
  }

  ghost predicate FineAt(s: Stream, j: nat)
    requires j < |s|
  {
    && Official(s[j].phase)
    && s[j].start < s[j].end
    && (j > 0 ==> s[j - 1].end == s[j].start)
    && !(s[j].phase == Laning && LeftLaning(s, j))
  }

  lemma FlagsAdvance(s: Stream, i: nat)
    requires i < |s|
    ensures SeenLaning(s, i + 1) <==> SeenLaning(s, i) || s[i].phase == Laning
    ensures LeftLaning(s, i + 1) <==> LeftLaning(s, i) || (SeenLaning(s, i) && s[i].phase != Laning)
  {
    if LeftLaning(s, i + 1) {
      var j, k :| 0 <= j < k < i + 1 && s[j].phase == Laning && s[k].phase != Laning;
      if k < i { assert LeftLaning(s, i); } else { assert SeenLaning(s, i); }
    }
    if SeenLaning(s, i) && s[i].phase != Laning {
      var j :| 0 <= j < i && s[j].phase == Laning;
      assert LeftLaning(s, i + 1);
    }
  }

  lemma {:induction false} ScanFinds(s: Stream, i: nat)
    requires i <= |s| && (s != [] ==> s[0].start == 0)
    ensures ScanFault(s, i, if i == 0 then 0 else s[i - 1].end, SeenLaning(s, i), LeftLaning(s, i)).None?
      <==> forall j :: i <= j < |s| ==> FineAt(s, j)
    decreases |s| - i
  {
    if i < |s| {
      FlagsAdvance(s, i);
      ScanFinds(s, i + 1);
      hide LeftLaning;
      hide SeenLaning;
      if FineAt(s, i) {
        assert s[i].phase == Laning || !(s[i].phase == Laning);
      }
    }
  }

  lemma NoReentryIs(s: Stream)
    ensures NoLaningReentry(s) <==> forall k :: 0 <= k < |s| ==> !(s[k].phase == Laning && LeftLaning(s, k))
  {
    if !NoLaningReentry(s) {
      var i, j, k :| 0 <= i < j < k < |s| && s[i].phase == Laning && s[k].phase == Laning && s[j].phase != Laning;
      assert LeftLaning(s, k);
    }
  }

  lemma FineMeansValid(s: Stream, eligible: int)
    requires s != [] && s[0].start == 0 && s[|s| - 1].end == eligible
    ensures (forall j :: 0 <= j < |s| ==> FineAt(s, j)) <==> ValidStream(s, eligible)
  {
    NoReentryIs(s);
    hide LeftLaning;
    hide NoLaningReentry;
    if ValidStream(s, eligible) {
      forall j | 0 <= j < |s| ensures FineAt(s, j) {}
    }
    if forall j :: 0 <= j < |s| ==> FineAt(s, j) {
      forall i | 0 <= i < |s|
        ensures Official(s[i].phase) && s[i].start < s[i].end && (i > 0 ==> s[i - 1].end == s[i].start)
      {
        assert FineAt(s, i);
      }
      forall k | 0 <= k < |s| ensures !(s[k].phase == Laning && LeftLaning(s, k)) {
        assert FineAt(s, k);
      }
    }
  }

  /** The scan accepts exactly the official phase streams. */
  lemma FaultMeansInvalid(s: Stream, eligible: int)
    ensures StreamFault(s, eligible).None? <==> ValidStream(s, eligible)
  {
    if s != [] && s[0].start == 0 && s[|s| - 1].end == eligible {
      assert !SeenLaning(s, 0) && !LeftLaning(s, 0);
      ScanFinds(s, 0);
      FineMeansValid(s, eligible);
      hide FineAt;
      hide ValidStream;
      hide ScanFault;
    }
  }

  lemma {:induction false} ScanOnlyFindsReentry(s: Stream, eligible: int, i: nat, seen: bool, left: bool)
    requires SoundStream(s, eligible) && i <= |s|
    ensures var f := ScanFault(s, i, if i == 0 then 0 else s[i - 1].end, seen, left);
      f.None? || f == Some(LaningReentry)
    decreases |s| - i
  {
    if i < |s| {
      ScanOnlyFindsReentry(s, eligible, i + 1, seen || s[i].phase == Laning, left || (seen && s[i].phase != Laning));
    }
  }

  /** On a sound stream the only fault left to find is a re-entry into laning. */
  lemma OnlyReentryRemains(s: Stream, eligible: int)
    requires SoundStream(s, eligible)
    ensures StreamFault(s, eligible) == if NoLaningReentry(s) then None else Some(LaningReentry)
  {
    FaultMeansInvalid(s, eligible);
    ScanOnlyFindsReentry(s, eligible, 0, false, false);
  }

  // ---- references ----

  /** In a valid stream the canonical reference of an interval names that interval. */
  lemma CanonicalRefResolves(s: Stream, lo: int, hi: int, i: nat)
    requires Tiling(s, lo, hi) && 0 <= lo && hi <= MAX_INT && i < |s|
    ensures FindByRef(s, CanonicalEventRef(s[i])) == Some(i)
  {
    TilingOrdered(s, lo, hi);
    RefRoundTrip(s[i].start, s[i].end);
    hide BoundsRef;
    hide ParseEventRef;
    assert CanonicalEventRef(s[i]) != "" by { EmptyRefReadsAsNothing(); }
    var found := FindFrom(s, Closed(s[i].start, s[i].end), 0);
    assert Matches(s[i], Closed(s[i].start, s[i].end));
  }

  lemma EmptyRefReadsAsNothing()
    ensures ParseEventRef("") == None
  {
    assert TrimSpace("") == "";
    assert TrimPrefix("", PREFIX) == "";
  }

  lemma SplitIs(s: Stream, req: EditRequest)
    requires req.op == Split
    ensures Transform(s, req) == SplitOp(s, req)
  {
  }

  lemma MergeIs(s: Stream, req: EditRequest)
    requires req.op == Merge
    ensures Transform(s, req) == MergeOp(s, req)
  {
  }

  lemma MoveIs(s: Stream, req: EditRequest)
    requires req.op == Move
    ensures Transform(s, req) == MoveOp(s, req)
  {
  }

  lemma DeleteIs(s: Stream, req: EditRequest)
    requires req.op == Delete
    ensures Transform(s, req) == DeleteOp(s, req)
  {
  }

  // ---- every operation is a splice ----

  datatype Patch = Patch(i: nat, j: nat, mid: Stream)

  ghost predicate Fits(s: Stream, p: Patch) {
    p.i < p.j <= |s| && Tiling(p.mid, s[p.i].start, s[p.j - 1].end)
  }

  /** Which intervals a successful operation replaces, and by what. */
  function PatchOf(s: Stream, req: EditRequest): (p: Patch)
    requires s != [] && Transform(s, req).Ok?
  {
    match req.op
    case Accept => Patch(0, 1, [s[0]])
    case Relabel =>
      var i := FindByRef(s, req.eventRef).value;
      Patch(i, i + 1, [WithRef(s[i].(phase := req.effective.value.phase))])
    case Split =>
      var i, at := FindByRef(s, req.eventRef).value, req.splitSecond.value;
      Patch(i, i + 1, [WithRef(s[i].(end := at)), WithRef(s[i].(start := at))])
    case Merge =>
      var i, k := FindByRef(s, req.eventRef).value, FindByRef(s, req.mergeRight).value;
      var li, ri := if i < k then i else k, if i < k then k else i;
      Patch(li, ri + 1, [WithRef(PhaseInterval(s[li].start, s[ri].end, MergedLabel(s[li], req), s[li].roundIndex, ""))])
    case Move =>
      var i, eff := FindByRef(s, req.eventRef).value, req.effective.value;
      if eff.start != s[i].start
      then Patch(i - 1, i + 1, [WithRef(s[i - 1].(end := eff.start)), WithRef(s[i].(start := eff.start))])
      else Patch(i, i + 2, [WithRef(s[i].(end := eff.end)), WithRef(s[i + 1].(start := eff.end))])
    case Add =>
      var iv := req.effective.value;
      var c := FindCover(s, iv, 0).value;
      Patch(c, c + 1,
        if iv.start == s[c].start && iv.end == s[c].end then [WithRef(s[c].(phase := iv.phase))]
        else Part(s[c].start, iv.start, s[c].phase, s[c].roundIndex)
             + Part(iv.start, iv.end, iv.phase, s[c].roundIndex)
             + Part(iv.end, s[c].end, s[c].phase, s[c].roundIndex))
    case Delete =>
      var i, a := FindByRef(s, req.eventRef).value, FindByRef(s, req.absorbInto).value;
      if s[a].end == s[i].start
      then Patch(a, i + 1, [WithRef(s[a].(end := s[i].end))])
      else Patch(i, a + 1, [WithRef(s[a].(start := s[i].start))])
  }

  /** A merge takes the requested label, or the left interval's when none is given. */
  function MergedLabel(left: PhaseInterval, req: EditRequest): Phase {
    if req.effective.Some? && req.effective.value.phase != NO_LABEL then req.effective.value.phase else left.phase
  }

  lemma TilingStep(s: Stream, lo: int, hi: int, a: nat, b: nat)
    requires Tiling(s, lo, hi) && a < |s| && b < |s| && s[a].end == s[b].start
    ensures b == a + 1
  {
    TilingOrdered(s, lo, hi);
    if a + 1 < |s| { assert s[a].end == s[a + 1].start; }
  }

  ghost predicate PatchIsRight(s: Stream, req: EditRequest)
    requires s != [] && Transform(s, req).Ok?
  {
    var p := PatchOf(s, req);
    Fits(s, p) && AllOfficial(p.mid) && Transform(s, req) == Ok(Splice(s, p.i, p.j, p.mid))
  }

  /** Under the guards of its operation, a patch fits and gives the operation's result. */
  lemma PatchFits(s: Stream, req: EditRequest)
    requires SoundStream(s, req.eligible) && Transform(s, req).Ok?
    ensures PatchIsRight(s, req)
  {
    hide PatchIsRight;
    match req.op {
      case Accept => AcceptPatchFits(s, req);
      case Relabel => RelabelPatchFits(s, req);
      case Split => SplitPatchFits(s, req);
      case Merge => MergePatchFits(s, req);
      case Move => MovePatchFits(s, req);
      case Add => AddPatchFits(s, req);
      case Delete => DeletePatchFits(s, req);
    }
  }

  lemma AcceptPatchFits(s: Stream, req: EditRequest)
    requires SoundStream(s, req.eligible) && req.op == Accept && Transform(s, req).Ok?
    ensures PatchIsRight(s, req)
  {
    assert s == Splice(s, 0, 1, [s[0]]);
  }

  lemma RelabelPatchFits(s: Stream, req: EditRequest)
    requires SoundStream(s, req.eligible) && req.op == Relabel && Transform(s, req).Ok?
    ensures PatchIsRight(s, req)
  {
    hide FindByRef;
    hide BoundsRef;
    var p := PatchOf(s, req);
    UpdateIsSplice(s, p.i, p.mid[0]);
  }

  lemma SplitPatchFits(s: Stream, req: EditRequest)
    requires SoundStream(s, req.eligible) && req.op == Split && Transform(s, req).Ok?
    ensures PatchIsRight(s, req)
  {
    hide FindByRef;
    hide BoundsRef;
  }

  lemma UpdateIsSplice(s: Stream, i: nat, iv: PhaseInterval)
    requires i < |s|
    ensures s[i := iv] == Splice(s, i, i + 1, [iv])
  {
  }

  lemma UpdateTwoIsSplice(s: Stream, i: nat, a: PhaseInterval, b: PhaseInterval)
    requires i + 1 < |s|
    ensures s[i := a][i + 1 := b] == s[i + 1 := b][i := a] == Splice(s, i, i + 2, [a, b])
  {
  }

  lemma MergePatchFits(s: Stream, req: EditRequest)
    requires SoundStream(s, req.eligible) && req.op == Merge && Transform(s, req).Ok?
    ensures PatchIsRight(s, req)
  {
    hide FindByRef;
    hide BoundsRef;
    var i, k := FindByRef(s, req.eventRef).value, FindByRef(s, req.mergeRight).value;
    var li, ri := if i < k then i else k, if i < k then k else i;
    TilingStep(s, 0, req.eligible, li, ri);
  }

  lemma MovePatchFits(s: Stream, req: EditRequest)
    requires SoundStream(s, req.eligible) && req.op == Move && Transform(s, req).Ok?
    ensures PatchIsRight(s, req)
  {
    hide FindByRef;
    hide BoundsRef;
    var p := PatchOf(s, req);
    UpdateTwoIsSplice(s, p.i, p.mid[0], p.mid[1]);
    assert s[p.i].end == s[p.i + 1].start;
  }

  lemma AddPatchFits(s: Stream, req: EditRequest)
    requires SoundStream(s, req.eligible) && req.op == Add && Transform(s, req).Ok?
    ensures PatchIsRight(s, req)
  {
    hide BoundsRef;
    AddIs(s, req);
    hide Transform;
    var p := PatchOf(s, req);
    var iv := req.effective.value;
    assert Official(iv.phase) && iv.start < iv.end && Contains(s[p.i], iv);
    if iv.start == s[p.i].start && iv.end == s[p.i].end {
      UpdateIsSplice(s, p.i, p.mid[0]);
    } else {
      PartsTile(s[p.i], iv);
    }
    hide Part;
  }

  lemma AddIs(s: Stream, req: EditRequest)
    requires req.op == Add
    ensures Transform(s, req) == AddOp(s, req)
  {
  }

  lemma PartsTile(orig: PhaseInterval, iv: PhaseInterval)
    requires Contains(orig, iv) && iv.start < iv.end && Official(orig.phase) && Official(iv.phase)
    ensures var mid := Part(orig.start, iv.start, orig.phase, orig.roundIndex)
                       + Part(iv.start, iv.end, iv.phase, orig.roundIndex)
                       + Part(iv.end, orig.end, orig.phase, orig.roundIndex);
      Tiling(mid, orig.start, orig.end) && AllOfficial(mid)
  {
    hide BoundsRef;
  }

  lemma DeletePatchFits(s: Stream, req: EditRequest)
    requires SoundStream(s, req.eligible) && req.op == Delete && Transform(s, req).Ok?
    ensures PatchIsRight(s, req)
  {
    hide FindByRef;
    hide BoundsRef;
    var i, a := FindByRef(s, req.eventRef).value, FindByRef(s, req.absorbInto).value;
    var p := PatchOf(s, req);
    if s[a].end == s[i].start {
      TilingStep(s, 0, req.eligible, a, i);
      assert Without(s[a := p.mid[0]], i) == Splice(s, a, i + 1, p.mid);
    } else {
      TilingStep(s, 0, req.eligible, i, a);
      assert Without(s[a := p.mid[0]], i) == Splice(s, i, a + 1, p.mid);
    }
  }

  // ---- guards suffice ----

  /** Any operation whose own guards pass on a sound stream yields a sound stream, and
      the validation that follows can only object to a re-entry into laning. */
  lemma GuardsSuffice(s: Stream, req: EditRequest)
    requires SoundStream(s, req.eligible) && Transform(s, req).Ok?
    ensures var out := Transform(s, req).value;
      && SoundStream(out, req.eligible)
      && Apply(s, req) == if NoLaningReentry(out) then Ok(out) else Err(LaningReentry)
  {
    PatchFits(s, req);
    var p := PatchOf(s, req);
    var out := Transform(s, req).value;
    SpliceTiles(s, 0, req.eligible, p.i, p.j, p.mid);
    SpliceOfficial(s, p.i, p.j, p.mid);
    hide Transform;
    hide PatchOf;
    TilingOrdered(s, 0, req.eligible);
    SortKeepsTiling(s, 0, req.eligible);
    SortKeepsTiling(out, 0, req.eligible);
    OnlyReentryRemains(out, req.eligible);
  }

  /** These operations repeat labels of their base in order, so they never re-enter. */
  ghost predicate KeepsLabels(req: EditRequest) {
    || req.op == Accept || req.op == Split || req.op == Move || req.op == Delete
    || (req.op == Merge && (req.effective.Some? ==> req.effective.value.phase == NO_LABEL))
  }

  /** For each interval of a patch, the base interval whose label it repeats. */
  function LabelSources(s: Stream, req: EditRequest): seq<nat>
    requires s != [] && Transform(s, req).Ok?
  {
    var p := PatchOf(s, req);
    match req.op
    case Split => [p.i, p.i]
    case Move => [p.i, p.i + 1]
    case Delete => [FindByRef(s, req.absorbInto).value]
    case _ => [p.i]
  }

  ghost predicate SourcesFit(s: Stream, req: EditRequest)
    requires s != [] && Transform(s, req).Ok?
  {
    var p, g := PatchOf(s, req), LabelSources(s, req);
    Relabels(s, p.mid, g) && forall m :: 0 <= m < |g| ==> p.i <= g[m] < p.j
  }

  lemma LabelsAreRepeated(s: Stream, req: EditRequest)
    requires SoundStream(s, req.eligible) && Transform(s, req).Ok? && KeepsLabels(req)
    ensures SourcesFit(s, req)
  {
    hide SourcesFit;
    assert s != [];
    hide SoundStream;
    match req.op {
      case Accept => AcceptRepeats(s, req);
      case Split => SplitRepeats(s, req);
      case Merge => MergeRepeats(s, req);
      case Move => MoveRepeats(s, req);
      case Delete => DeletionRepeats(s, req);
    }
  }

  lemma AcceptRepeats(s: Stream, req: EditRequest)
    requires s != [] && req.op == Accept && Transform(s, req).Ok?
    ensures SourcesFit(s, req)
  {
    hide Transform;
  }

  lemma SplitRepeats(s: Stream, req: EditRequest)
    requires s != [] && req.op == Split && Transform(s, req).Ok?
    ensures SourcesFit(s, req)
  {
    SplitIs(s, req);
    hide Transform;
    hide BoundsRef;
    hide FindByRef;
  }

  lemma MergeRepeats(s: Stream, req: EditRequest)
    requires s != [] && req.op == Merge && Transform(s, req).Ok? && KeepsLabels(req)
    ensures SourcesFit(s, req)
  {
    MergeIs(s, req);
    hide Transform;
    hide BoundsRef;
    hide FindByRef;
  }

  lemma MovePatchShape(s: Stream, req: EditRequest)
    requires s != [] && req.op == Move && Transform(s, req).Ok?
    ensures var p := PatchOf(s, req);
      && p.j == p.i + 2 && p.i + 1 < |s| && |p.mid| == 2
      && p.mid[0].phase == s[p.i].phase && p.mid[1].phase == s[p.i + 1].phase
  {
    hide Transform, BoundsRef, FindByRef;
    MoveIs(s, req);
  }

  lemma MoveRepeats(s: Stream, req: EditRequest)
    requires s != [] && req.op == Move && Transform(s, req).Ok?
    ensures SourcesFit(s, req)
  {
    hide Transform;
    MovePatchShape(s, req);
    hide PatchOf;
  }

  lemma DeletePatchShape(s: Stream, req: EditRequest)
    requires s != [] && req.op == Delete && Transform(s, req).Ok?
    ensures FindByRef(s, req.absorbInto).Some?
    ensures var a, p := FindByRef(s, req.absorbInto).value, PatchOf(s, req);
      && a < |s| && |p.mid| == 1 && p.mid[0].phase == s[a].phase
      && (p.i < p.j ==> p.i <= a < p.j)
  {
    DeleteIs(s, req);
    hide Transform, BoundsRef, FindByRef, Without;
  }

  lemma DeletionRepeats(s: Stream, req: EditRequest)
    requires SoundStream(s, req.eligible) && req.op == Delete && Transform(s, req).Ok?
    ensures SourcesFit(s, req)
  {
    DeletePatchFits(s, req);
    DeletePatchShape(s, req);
    OneSource(s, PatchOf(s, req), FindByRef(s, req.absorbInto).value);
    hide Transform, BoundsRef, FindByRef, SoundStream, Tiling, AllOfficial, PatchOf, Splice, Relabels;
  }

  lemma OneSource(s: Stream, p: Patch, a: nat)
    requires a < |s| && |p.mid| == 1 && p.mid[0].phase == s[a].phase && p.i <= a < p.j
    ensures Relabels(s, p.mid, [a]) && forall m :: 0 <= m < |[a]| ==> p.i <= [a][m] < p.j
  {}

  /** On a valid stream these operations are accepted as soon as their guards pass. */
  lemma NeverRejected(s: Stream, req: EditRequest)
    requires ValidStream(s, req.eligible) && Transform(s, req).Ok? && KeepsLabels(req)
    ensures Apply(s, req) == Transform(s, req) && ValidStream(Apply(s, req).value, req.eligible)
  {
    LabelsAreRepeated(s, req);
    PatchFits(s, req);
    GuardsSuffice(s, req);
    var p := PatchOf(s, req);
    var g := LabelSources(s, req);
    hide PatchOf;
    hide Transform;
    hide LabelSources;
    hide Apply;
    SpliceNoReentry(s, p.i, p.j, p.mid, g);
  }

  /** Whatever the base, an accepted operation leaves a valid stream. */
  lemma AcceptedMeansValid(base: Stream, req: EditRequest)
    ensures Apply(base, req).Ok? ==> ValidStream(Apply(base, req).value, req.eligible)
  {
    if Apply(base, req).Ok? {
      var out := SortByStart(Transform(SortByStart(base), req).value);
      FaultMeansInvalid(out, req.eligible);
    }
  }

  // ---- what each operation means second by second ----

  lemma LabelOfOne(iv: PhaseInterval, t: int)
    ensures LabelAt([iv], t) == if Covers(iv, t) then Some(iv.phase) else None
  {
    LabelAtAppend([], iv, t);
    assert [] + [iv] == [iv];
  }

  lemma LabelOfTwo(a: PhaseInterval, b: PhaseInterval, t: int)
    ensures LabelAt([a, b], t) == if Covers(a, t) then Some(a.phase) else if Covers(b, t) then Some(b.phase) else None
  {
    LabelOfOne(a, t);
    LabelAtAppend([a], b, t);
    assert [a] + [b] == [a, b];
  }

  /** One interval in place of a run: its seconds take its label, no other changes. */
  lemma OneForMany(s: Stream, hi: int, i: nat, j: nat, iv: PhaseInterval, t: int)
    requires Tiling(s, 0, hi) && i < j <= |s| && iv.start == s[i].start && iv.end == s[j - 1].end && iv.start < iv.end
    ensures LabelAt(Splice(s, i, j, [iv]), t) == if Covers(iv, t) then Some(iv.phase) else LabelAt(s, t)
  {
    SpliceLabel(s, 0, hi, i, j, [iv], t);
    LabelOfOne(iv, t);
  }

  /** Two intervals in place of a run. */
  lemma TwoForMany(s: Stream, hi: int, i: nat, j: nat, a: PhaseInterval, b: PhaseInterval, t: int)
    requires Tiling(s, 0, hi) && i < j <= |s| && a.start == s[i].start && b.end == s[j - 1].end
    requires a.start < a.end == b.start < b.end
    ensures LabelAt(Splice(s, i, j, [a, b]), t) ==
      if Covers(a, t) then Some(a.phase) else if Covers(b, t) then Some(b.phase) else LabelAt(s, t)
  {
    SpliceLabel(s, 0, hi, i, j, [a, b], t);
    LabelOfTwo(a, b, t);
  }

  /** Split and accept change no second. */
  lemma SplitAndAcceptKeepLabels(s: Stream, req: EditRequest, t: int)
    requires SoundStream(s, req.eligible) && Transform(s, req).Ok? && (req.op == Split || req.op == Accept)
    ensures LabelAt(Transform(s, req).value, t) == LabelAt(s, t)
  {
    if req.op == Split {
      SplitIs(s, req);
      hide Transform;
      hide FindByRef;
      hide BoundsRef;
      var i, at := FindByRef(s, req.eventRef).value, req.splitSecond.value;
      var a, b := WithRef(s[i].(end := at)), WithRef(s[i].(start := at));
      assert SplitOp(s, req) == Ok(Splice(s, i, i + 1, [a, b]));
      TwoForMany(s, req.eligible, i, i + 1, a, b, t);
      if Covers(s[i], t) { LabelAtIndex(s, 0, req.eligible, i, t); }
    }
  }

  /** Relabel changes the label of the referenced interval's seconds, and no other. */
  lemma RelabelMeans(s: Stream, req: EditRequest, t: int)
    requires SoundStream(s, req.eligible) && Transform(s, req).Ok? && req.op == Relabel
    ensures LabelAt(Transform(s, req).value, t) ==
      if Covers(req.effective.value, t) then Some(req.effective.value.phase) else LabelAt(s, t)
  {
    hide FindByRef;
    hide BoundsRef;
    var i := FindByRef(s, req.eventRef).value;
    var iv := WithRef(s[i].(phase := req.effective.value.phase));
    UpdateIsSplice(s, i, iv);
    OneForMany(s, req.eligible, i, i + 1, iv, t);
  }

  /** Add labels exactly the requested range. */
  lemma AddMeans(s: Stream, req: EditRequest, t: int)
    requires SoundStream(s, req.eligible) && Transform(s, req).Ok? && req.op == Add
    ensures LabelAt(Transform(s, req).value, t) ==
      if Covers(req.effective.value, t) then Some(req.effective.value.phase) else LabelAt(s, t)
  {
    PatchFits(s, req);
    hide BoundsRef;
    var iv := req.effective.value;
    var c := FindCover(s, iv, 0).value;
    var p := PatchOf(s, req);
    SpliceLabel(s, 0, req.eligible, p.i, p.j, p.mid, t);
    if Covers(s[c], t) { LabelAtIndex(s, 0, req.eligible, c, t); }
    if iv.start == s[c].start && iv.end == s[c].end {
      LabelOfOne(WithRef(s[c].(phase := iv.phase)), t);
    } else {
      LabelOfPart(s[c].start, iv.start, s[c].phase, s[c].roundIndex, t);
      LabelOfPart(iv.start, iv.end, iv.phase, s[c].roundIndex, t);
      LabelOfPart(iv.end, s[c].end, s[c].phase, s[c].roundIndex, t);
      LabelAtThree(
        Part(s[c].start, iv.start, s[c].phase, s[c].roundIndex), Part(iv.start, iv.end, iv.phase, s[c].roundIndex),
        Part(iv.end, s[c].end, s[c].phase, s[c].roundIndex), t);
      hide Part;
      hide LabelAt;
    }
  }

  lemma LabelOfPart(start: int, end: int, phase: Phase, roundIndex: int, t: int)
    ensures LabelAt(Part(start, end, phase, roundIndex), t) == if start <= t < end then Some(phase) else None
  {
    LabelOfOne(WithRef(PhaseInterval(start, end, phase, roundIndex, "")), t);
  }

  /** Merge gives both halves one label: the requested one, or that of the left half. */
  lemma MergeMeans(s: Stream, req: EditRequest, t: int)
    requires SoundStream(s, req.eligible) && Transform(s, req).Ok? && req.op == Merge
    ensures var i, k := FindByRef(s, req.eventRef).value, FindByRef(s, req.mergeRight).value;
      var li, ri := if i < k then i else k, if i < k then k else i;
      LabelAt(Transform(s, req).value, t) ==
        if s[li].start <= t < s[ri].end then Some(MergedLabel(s[li], req)) else LabelAt(s, t)
  {
    MergePatchFits(s, req);
    hide Transform;
    hide FindByRef;
    hide BoundsRef;
    var p := PatchOf(s, req);
    OneForMany(s, req.eligible, p.i, p.j, p.mid[0], t);
    hide Tiling;
    hide Splice;
    hide LabelAt;
  }

  /** Delete gives the target's seconds the absorber's label, and changes no other. */
  lemma DeleteMeans(s: Stream, req: EditRequest, t: int)
    requires SoundStream(s, req.eligible) && Transform(s, req).Ok? && req.op == Delete
    ensures FindByRef(s, req.eventRef).Some? && FindByRef(s, req.absorbInto).Some?
    ensures var i, a := FindByRef(s, req.eventRef).value, FindByRef(s, req.absorbInto).value;
      LabelAt(Transform(s, req).value, t) == if Covers(s[i], t) then Some(s[a].phase) else LabelAt(s, t)
  {
    DeleteIs(s, req);
    DeleteSplices(s, req);
    hide *;
    var i, a := FindByRef(s, req.eventRef).value, FindByRef(s, req.absorbInto).value;
    assert Tiling(s, 0, req.eligible) by { SoundTiles(s, req.eligible); }
    AbsorbedLabel(s, req.eligible, i, a, t);
  }

  lemma SoundTiles(s: Stream, eligible: int)
    requires SoundStream(s, eligible)
    ensures Tiling(s, 0, eligible)
  {}

  /** The absorber and the target become one interval under the absorber's label. */
  lemma DeleteSplices(s: Stream, req: EditRequest)
    requires SoundStream(s, req.eligible) && Transform(s, req).Ok? && req.op == Delete
    ensures FindByRef(s, req.eventRef).Some? && FindByRef(s, req.absorbInto).Some?
    ensures var i, a := FindByRef(s, req.eventRef).value, FindByRef(s, req.absorbInto).value;
      && i < |s| && a < |s|
      && (if s[a].end == s[i].start
          then a < i + 1 && Transform(s, req).value == Splice(s, a, i + 1, [WithRef(s[a].(end := s[i].end))])
          else s[a].start == s[i].end && i < a + 1 &&
                 Transform(s, req).value == Splice(s, i, a + 1, [WithRef(s[a].(start := s[i].start))]))
  {
    DeleteIs(s, req);
    SoundTiles(s, req.eligible);
    hide Transform, BoundsRef, FindByRef, Without, Splice, Tiling, SoundStream, WithRef;
    var i, a := FindByRef(s, req.eventRef).value, FindByRef(s, req.absorbInto).value;
    if s[a].end == s[i].start {
      TilingStep(s, 0, req.eligible, a, i);
      AbsorbLeft(s, a, WithRef(s[a].(end := s[i].end)));
    } else {
      TilingStep(s, 0, req.eligible, i, a);
      AbsorbRight(s, i, WithRef(s[a].(start := s[i].start)));
    }
  }

  lemma AbsorbLeft(s: Stream, a: nat, x: PhaseInterval)
    requires a + 1 < |s|
    ensures Without(s[a := x], a + 1) == Splice(s, a, a + 2, [x])
  {}

  lemma AbsorbRight(s: Stream, i: nat, x: PhaseInterval)
    requires i + 1 < |s|
    ensures Without(s[i + 1 := x], i) == Splice(s, i, i + 2, [x])
  {}

  lemma AbsorbedLabel(s: Stream, hi: int, i: nat, a: nat, t: int)
    requires Tiling(s, 0, hi) && i < |s| && a < |s|
    ensures s[a].end == s[i].start ==>
      (a < i + 1 && LabelAt(Splice(s, a, i + 1, [WithRef(s[a].(end := s[i].end))]), t) ==
          if Covers(s[i], t) then Some(s[a].phase) else LabelAt(s, t))
    ensures s[a].start == s[i].end ==>
      (i < a + 1 && LabelAt(Splice(s, i, a + 1, [WithRef(s[a].(start := s[i].start))]), t) ==
          if Covers(s[i], t) then Some(s[a].phase) else LabelAt(s, t))
  {
    hide BoundsRef;
    if Covers(s[a], t) { LabelAtIndex(s, 0, hi, a, t); }
    if s[a].end == s[i].start {
      TilingStep(s, 0, hi, a, i);
      OneForMany(s, hi, a, i + 1, WithRef(s[a].(end := s[i].end)), t);
    }
    if s[a].start == s[i].end {
      TilingStep(s, 0, hi, i, a);
      OneForMany(s, hi, i, a + 1, WithRef(s[a].(start := s[i].start)), t);
    }
  }

  /** Move changes only the seconds between the old and the new boundary; they take the
      label of the interval that now reaches over them. */
  lemma MoveMeans(s: Stream, req: EditRequest, t: int)
    requires SoundStream(s, req.eligible) && Transform(s, req).Ok? && req.op == Move
    ensures var i, eff := FindByRef(s, req.eventRef).value, req.effective.value;
      var left, from, to :=
        if eff.start != s[i].start then i - 1 else i,
        if eff.start != s[i].start then s[i].start else s[i].end,
        if eff.start != s[i].start then eff.start else eff.end;
      && 0 <= left < |s| - 1
      && LabelAt(Transform(s, req).value, t) ==
        (if from <= t < to then Some(s[left].phase)
         else if to <= t < from then Some(s[left + 1].phase)
         else LabelAt(s, t))
  {
    MovePatchFits(s, req);
    MoveIs(s, req);
    hide Transform;
    hide FindByRef;
    hide BoundsRef;
    var p := PatchOf(s, req);
    assert s[p.i].end == s[p.i + 1].start;
    MovedLabel(s, req.eligible, p.i, p.mid[0].end, t);
    hide Splice;
    hide LabelAt;
  }

  lemma MovedLabel(s: Stream, hi: int, left: nat, at: int, t: int)
    requires Tiling(s, 0, hi) && left + 1 < |s| && s[left].start < at < s[left + 1].end
    ensures LabelAt(Splice(s, left, left + 2, [WithRef(s[left].(end := at)), WithRef(s[left + 1].(start := at))]), t) ==
      if s[left].end <= t < at then Some(s[left].phase)
      else if at <= t < s[left].end then Some(s[left + 1].phase)
      else LabelAt(s, t)
  {
    hide BoundsRef;
    assert s[left].end == s[left + 1].start;
    TwoForMany(s, hi, left, left + 2, WithRef(s[left].(end := at)), WithRef(s[left + 1].(start := at)), t);
    if Covers(s[left], t) { LabelAtIndex(s, 0, hi, left, t); }
    if Covers(s[left + 1], t) { LabelAtIndex(s, 0, hi, left + 1, t); }
  }

  // ---- undoing a split ----

  /** Merge the two halves of interval `iv` split at second `at`. */
  function MergeHalves(iv: PhaseInterval, at: int, eligible: int): EditRequest {
    EditRequest(Merge, BoundsRef(iv.start, at), None, None, BoundsRef(at, iv.end), "", eligible)
  }

  /** Delete one half of interval `iv`, split at `at`, into the other. */
  function DeleteHalf(iv: PhaseInterval, at: int, leftGoes: bool, eligible: int): EditRequest {
    var left, right := BoundsRef(iv.start, at), BoundsRef(at, iv.end);
    EditRequest(Delete, if leftGoes then left else right, None, None, "", if leftGoes then right else left, eligible)
  }

  function Halved(s: Stream, i: nat, at: int): Stream
    requires i < |s|
  {
    s[..i] + [WithRef(s[i].(end := at)), WithRef(s[i].(start := at))] + s[i + 1..]
  }

  /** After a split both halves are where their canonical references say. */
  lemma HalvesResolve(s: Stream, split: EditRequest)
    requires SoundStream(s, split.eligible) && split.eligible <= MAX_INT && split.op == Split && Transform(s, split).Ok?
    ensures var i, at := FindByRef(s, split.eventRef).value, split.splitSecond.value;
      var out := Transform(s, split).value;
      && s[i].start < at < s[i].end && Official(s[i].phase)
      && out == Halved(s, i, at)
      && FindByRef(out, BoundsRef(s[i].start, at)) == Some(i)
      && FindByRef(out, BoundsRef(at, s[i].end)) == Some(i + 1)
  {
    GuardsSuffice(s, split);
    HalvesAt(s, split);
    var i, at := FindByRef(s, split.eventRef).value, split.splitSecond.value;
    var out := Transform(s, split).value;
    SoundTiles(out, split.eligible);
    hide *;
    CanonicalRefResolves(out, 0, split.eligible, i);
    CanonicalRefResolves(out, 0, split.eligible, i + 1);
  }

  lemma HalvesAt(s: Stream, split: EditRequest)
    requires SoundStream(s, split.eligible) && split.op == Split && Transform(s, split).Ok?
    ensures FindByRef(s, split.eventRef).Some? && split.splitSecond.Some?
    ensures var i, at := FindByRef(s, split.eventRef).value, split.splitSecond.value;
      var out := Transform(s, split).value;
      && i < |s| && i + 1 < |out|
      && s[i].start < at < s[i].end && Official(s[i].phase)
      && out == Halved(s, i, at)
      && out[i].start == s[i].start && out[i].end == at && out[i + 1].start == at && out[i + 1].end == s[i].end
  {
    hide BoundsRef;
  }

  lemma RefIsNotEmpty(start: int, end: int)
    ensures BoundsRef(start, end) != ""
  {
    assert |BoundsRef(start, end)| >= |PREFIX|;
  }

  lemma HalvesRejoin(s: Stream, i: nat, at: int)
    requires i < |s| && Official(s[i].phase)
    ensures MergeAt(Halved(s, i, at), i, i + 1, None) == Ok(s[i := WithRef(s[i])])
    ensures Without(Halved(s, i, at)[i := WithRef(s[i])], i + 1) == s[i := WithRef(s[i])]
    ensures Without(Halved(s, i, at)[i + 1 := WithRef(s[i])], i) == s[i := WithRef(s[i])]
  {
    hide BoundsRef;
    var out := Halved(s, i, at);
    assert out[..i] == s[..i] && out[i + 2..] == s[i + 1..];
    assert s[..i] + [WithRef(s[i])] + s[i + 1..] == s[i := WithRef(s[i])];
  }

  /** Splitting an interval and merging the halves gives back the stream; only the
      interval's own reference is rewritten. */
  lemma SplitThenMerge(s: Stream, split: EditRequest)
    requires SoundStream(s, split.eligible) && split.eligible <= MAX_INT && split.op == Split && Transform(s, split).Ok?
    ensures var i := FindByRef(s, split.eventRef).value;
      Transform(Transform(s, split).value, MergeHalves(s[i], split.splitSecond.value, split.eligible)) ==
          Ok(s[i := WithRef(s[i])])
  {
    HalvesResolve(s, split);
    var i, at := FindByRef(s, split.eventRef).value, split.splitSecond.value;
    HalvesRejoin(s, i, at);
    MergeIs(Halved(s, i, at), MergeHalves(s[i], at, split.eligible));
    hide Transform;
    hide FindByRef;
    hide BoundsRef;
    hide SoundStream;
    hide MergeAt;
    hide Halved;
  }

  lemma HalfIsAbsorbed(s: Stream, i: nat, at: int, leftGoes: bool, eligible: int)
    requires i < |s| && s[i].start < at < s[i].end && Official(s[i].phase)
    requires FindByRef(Halved(s, i, at), BoundsRef(s[i].start, at)) == Some(i)
    requires FindByRef(Halved(s, i, at), BoundsRef(at, s[i].end)) == Some(i + 1)
    ensures DeleteOp(Halved(s, i, at), DeleteHalf(s[i], at, leftGoes, eligible)) == Ok(s[i := WithRef(s[i])])
  {
    HalvesRejoin(s, i, at);
    RefIsNotEmpty(s[i].start, at);
    RefIsNotEmpty(at, s[i].end);
    hide FindByRef;
    hide BoundsRef;
    hide Without;
    var out := Halved(s, i, at);
    assert out[i] == WithRef(s[i].(end := at)) && out[i + 1] == WithRef(s[i].(start := at));
    hide Halved;
    var a, gone := if leftGoes then i + 1 else i, if leftGoes then i else i + 1;
    assert leftGoes ==> out[a].end != out[gone].start && WithRef(out[a].(start := out[gone].start)) == WithRef(s[i]);
    assert !leftGoes ==> WithRef(out[a].(end := out[gone].end)) == WithRef(s[i]);
    hide WithRef;
  }

  /** So does splitting and deleting either half into the other. */
  lemma SplitThenDelete(s: Stream, split: EditRequest, leftGoes: bool)
    requires SoundStream(s, split.eligible) && split.eligible <= MAX_INT && split.op == Split && Transform(s, split).Ok?
    ensures var i := FindByRef(s, split.eventRef).value;
      Transform(Transform(s, split).value, DeleteHalf(s[i], split.splitSecond.value, leftGoes, split.eligible)) ==
          Ok(s[i := WithRef(s[i])])
  {
    HalvesResolve(s, split);
    var i, at := FindByRef(s, split.eventRef).value, split.splitSecond.value;
    HalfIsAbsorbed(s, i, at, leftGoes, split.eligible);
    DeleteIs(Halved(s, i, at), DeleteHalf(s[i], at, leftGoes, split.eligible));
    hide *;
  }

  /** The same through the whole editor, on a valid stream: both edits are accepted. */
  lemma SplitIsUndoable(s: Stream, split: EditRequest, leftGoes: bool)
    requires ValidStream(s, split.eligible) && split.eligible <= MAX_INT && split.op == Split && Transform(s, split).Ok?
    ensures Apply(s, split).Ok?
    ensures var i, at, out := FindByRef(s, split.eventRef).value, split.splitSecond.value, Apply(s, split).value;
      && Apply(out, MergeHalves(s[i], at, split.eligible)) == Ok(s[i := WithRef(s[i])])
      && Apply(out, DeleteHalf(s[i], at, leftGoes, split.eligible)) == Ok(s[i := WithRef(s[i])])
  {
    var i, at := FindByRef(s, split.eventRef).value, split.splitSecond.value;
    NeverRejected(s, split);
    SplitThenMerge(s, split);
    SplitThenDelete(s, split, leftGoes);
    var out := Apply(s, split).value;
    hide Transform;
    hide Apply;
    NeverRejected(out, MergeHalves(s[i], at, split.eligible));
    NeverRejected(out, DeleteHalf(s[i], at, leftGoes, split.eligible));
  }
}
