/** The editor as the program runs it: a private copy of the base is sorted, edited and
    validated in place. Each method is proved against its function in EditorSpec, and
    the base the overlay was given is never written. */
module PhaseOverlay {
  import opened Wrappers
  import opened Phases
  import opened EventRefs
  import opened EditorSpec

  /** What an editing method reports and leaves behind is what `spec` says. */
  ghost predicate Realizes(spec: EditResult, after: Stream, err: Option<EditError>) {
    match spec
    case Ok(s) => err.None? && after == s
    case Err(e) => err == Some(e)
  }

  method NewArray(s: Stream) returns (a: array<PhaseInterval>)
    ensures fresh(a) && a[..] == s
  {
    a := new PhaseInterval[|s|](i requires 0 <= i < |s| => s[i]);
  }

  // ---- sorting and validating in place ----

  /** Insertion puts an interval after the last one that does not start later. */
  lemma {:induction false} InsertionPoint(s: Stream, iv: PhaseInterval, j: nat)
    requires j <= |s| && (j > 0 ==> s[j - 1].start <= iv.start)
    requires forall k :: j <= k < |s| ==> s[k].start > iv.start
    ensures InsertByStart(s, iv) == s[..j] + [iv] + s[j..]
  {
    var n := |s| - 1;
    if j <= n {
      InsertionPoint(s[..n], iv, j);
      assert s[..n][..j] == s[..j] && s[j..] == s[..n][j..] + [s[n]];
    } else {
      assert s[..j] == s && s[j..] == [];
    }
  }

  method InsertInPlace(a: array<PhaseInterval>, i: nat)
    requires i < a.Length
    modifies a
    ensures a[..i + 1] == InsertByStart(old(a[..i]), old(a[i])) && a[i + 1..] == old(a[i + 1..])
  {
    hide InsertByStart;
    var iv, j := a[i], i;
    ghost var s := a[..i];
    while j > 0 && a[j - 1].start > iv.start
      invariant 0 <= j <= i && a[i + 1..] == old(a[i + 1..])
      invariant forall k :: 0 <= k < j ==> a[k] == s[k]
      invariant forall k :: j <= k < i ==> a[k + 1] == s[k] && s[k].start > iv.start
    {
      a[j] := a[j - 1];
      j := j - 1;
    }
    a[j] := iv;
    InsertionPoint(s, iv, j);
    assert a[..i + 1] == s[..j] + [iv] + s[j..];
  }

  method SortInPlace(a: array<PhaseInterval>)
    modifies a
    ensures a[..] == SortByStart(old(a[..]))
  {
    for i := 0 to a.Length
      invariant a[..i] == SortByStart(old(a[..i])) && a[i..] == old(a[i..])
    {
      assert old(a[..i + 1])[..i] == old(a[..i]) && a[i] == old(a[i]);
      InsertInPlace(a, i);
    }
    assert old(a[..a.Length]) == old(a[..]) && a[..a.Length] == a[..];
  }

  method ValidateStream(a: array<PhaseInterval>, eligible: int) returns (fault: Option<EditError>)
    modifies a
    ensures a[..] == SortByStart(old(a[..])) && fault == StreamFault(a[..], eligible)
  {
    SortInPlace(a);
    if a.Length == 0 {
      return Some(NoStream);
    }
    if a[0].start != 0 {
      return Some(FirstStartNotZero);
    }
    if a[a.Length - 1].end != eligible {
      return Some(FinalEndNotEligible);
    }
    var prevEnd, seenLaning, sawExit := 0, false, false;
    ghost var s := a[..];
    for i := 0 to a.Length
      invariant a[..] == s && ScanFault(s, 0, 0, false, false) == ScanFault(s, i, prevEnd, seenLaning, sawExit)
    {
      var iv := a[i];
      if !Official(iv.phase) {
        return Some(BadLabel(iv.phase));
      }
      if iv.end <= iv.start {
        return Some(NoWidth);
      }
      if i > 0 && iv.start < prevEnd {
        return Some(Overlap);
      }
      if iv.start > prevEnd {
        return Some(Gap);
      }
      prevEnd := iv.end;
      if iv.phase == Laning {
        if sawExit {
          return Some(LaningReentry);
        }
        seenLaning := true;
      } else if seenLaning {
        sawExit := true;
      }
    }
    return None;
  }

  method FindIndex(a: array<PhaseInterval>, text: string) returns (r: Option<nat>)
    ensures r == FindByRef(a[..], text)
  {
    if text == "" {
      return None;
    }
    var parsed := ParseEventRef(text);
    if parsed.None? {
      return None;
    }
    var ref := parsed.value;
    for i := 0 to a.Length
      invariant FindFrom(a[..], ref, 0) == FindFrom(a[..], ref, i)
    {
      if Matches(a[i], ref) {
        return Some(i);
      }
    }
    return None;
  }

  // ---- the operations ----

  method ApplyAccept(work: array<PhaseInterval>, req: EditRequest) returns (err: Option<EditError>)
    ensures Realizes(AcceptOp(work[..], req), work[..], err)
  {
    var found := FindIndex(work, req.eventRef);
    err := if found.None? then Some(Stale(req.eventRef)) else None;
  }

  method ApplyRelabel(work: array<PhaseInterval>, req: EditRequest) returns (err: Option<EditError>)
    modifies work
    ensures Realizes(RelabelOp(old(work[..]), req), work[..], err)
    ensures err.Some? ==> work[..] == old(work[..])
  {
    var found := FindIndex(work, req.eventRef);
    if found.None? {
      return Some(Stale(req.eventRef));
    }
    var target := work[found.value];
    if req.effective.None? {
      return Some(EffectiveRequired);
    }
    var eff := req.effective.value;
    if eff.start != target.start || eff.end != target.end {
      return Some(BoundariesChanged);
    }
    if !Official(eff.phase) {
      return Some(BadLabel(eff.phase));
    }
    work[found.value] := WithRef(target.(phase := eff.phase));
    return None;
  }

  method ApplyMove(work: array<PhaseInterval>, req: EditRequest) returns (err: Option<EditError>)
    modifies work
    ensures Realizes(MoveOp(old(work[..]), req), work[..], err)
    ensures err.Some? ==> work[..] == old(work[..])
  {
    var found := FindIndex(work, req.eventRef);
    hide FindByRef, BoundsRef;
    if found.None? {
      return Some(Stale(req.eventRef));
    }
    if req.effective.None? {
      return Some(EffectiveRequired);
    }
    var i, eff := found.value, req.effective.value;
    var target := work[i];
    if eff.phase != NO_LABEL && eff.phase != target.phase {
      return Some(MoveRelabels);
    }
    var movedStart, movedEnd := eff.start != target.start, eff.end != target.end;
    if movedStart && movedEnd {
      return Some(TwoBoundaries);
    } else if movedStart {
      if i == 0 {
        return Some(NoNeighbor);
      }
      if eff.start <= work[i - 1].start || eff.start >= target.end {
        return Some(BadBoundary);
      }
      work[i - 1] := WithRef(work[i - 1].(end := eff.start));
      target := target.(start := eff.start);
    } else if movedEnd {
      if i == work.Length - 1 {
        return Some(NoNeighbor);
      }
      if eff.end <= target.start || eff.end >= work[i + 1].end {
        return Some(BadBoundary);
      }
      work[i + 1] := WithRef(work[i + 1].(start := eff.end));
      target := target.(end := eff.end);
    } else {
      return Some(BoundaryUnchanged);
    }
    work[i] := WithRef(target);
    return None;
  }

  method ApplySplit(
    work: array<PhaseInterval>, req: EditRequest) returns (out: array<PhaseInterval>, err: Option<EditError>)
    ensures err.None? ==> fresh(out)
    ensures Realizes(SplitOp(work[..], req), out[..], err)
  {
    out := work;
    var found := FindIndex(work, req.eventRef);
    if found.None? {
      return out, Some(Stale(req.eventRef));
    }
    var i := found.value;
    if req.splitSecond.None? {
      return out, Some(SplitSecondRequired);
    }
    var at := req.splitSecond.value;
    if at <= work[i].start || at >= work[i].end {
      return out, Some(BadSplitSecond);
    }
    var left, right := WithRef(work[i].(end := at)), WithRef(work[i].(start := at));
    out := NewArray(work[..i] + [left, right] + work[i + 1..]);
    return out, None;
  }

  method ApplyMerge(
    work: array<PhaseInterval>, req: EditRequest) returns (out: array<PhaseInterval>, err: Option<EditError>)
    ensures err.None? ==> fresh(out)
    ensures Realizes(MergeOp(work[..], req), out[..], err)
  {
    out := work;
    var first := FindIndex(work, req.eventRef);
    if first.None? {
      return out, Some(Stale(req.eventRef));
    }
    var second := FindIndex(work, req.mergeRight);
    if second.None? {
      return out, Some(Stale(req.mergeRight));
    }
    var li, ri := first.value, second.value;
    if li == ri {
      return out, Some(SameInterval);
    }
    if li > ri {
      li, ri := ri, li;
    }
    hide FindByRef;
    out, err := MergePair(work, li, ri, req.effective);
  }

  method MergePair(
    work: array<PhaseInterval>, li: nat, ri: nat, effective: Option<PhaseInterval>)
    returns (out: array<PhaseInterval>, err: Option<EditError>)
    requires li < ri < work.Length
    ensures err.None? ==> fresh(out)
    ensures Realizes(MergeAt(work[..], li, ri, effective), out[..], err)
  {
    out := work;
    var l, r := work[li], work[ri];
    if l.end != r.start {
      return out, Some(NotAdjacent);
    }
    var phase := l.phase;
    if effective.Some? && effective.value.phase != NO_LABEL {
      phase := effective.value.phase;
    }
    if !Official(phase) {
      return out, Some(BadLabel(phase));
    }
    var merged := WithRef(PhaseInterval(l.start, r.end, phase, l.roundIndex, ""));
    out := NewArray(work[..li] + [merged] + work[ri + 1..]);
    return out, None;
  }

  method ApplyAdd(
    work: array<PhaseInterval>, req: EditRequest) returns (out: array<PhaseInterval>, err: Option<EditError>)
    modifies work
    ensures err.None? ==> out == work || fresh(out)
    ensures Realizes(AddOp(old(work[..]), req), out[..], err)
    ensures err.Some? ==> work[..] == old(work[..])
  {
    out := work;
    var fault := ShapeFault(req.effective, req.eligible);
    if fault.Some? {
      return out, fault;
    }
    var iv := req.effective.value;
    var covered := FindCovering(work, iv);
    if covered.None? {
      return out, Some(Stale(CanonicalEventRef(iv)));
    }
    var c := covered.value;
    var orig := work[c];
    if iv.start == orig.start && iv.end == orig.end {
      work[c] := WithRef(orig.(phase := iv.phase));
      return out, None;
    }
    var kept := Part(orig.start, iv.start, orig.phase, orig.roundIndex)
                + Part(iv.start, iv.end, iv.phase, orig.roundIndex)
                + Part(iv.end, orig.end, orig.phase, orig.roundIndex);
    out := NewArray(work[..c] + kept + work[c + 1..]);
    return out, None;
  }

  method FindCovering(work: array<PhaseInterval>, iv: PhaseInterval) returns (r: Option<nat>)
    ensures r == FindCover(work[..], iv, 0)
  {
    for i := 0 to work.Length
      invariant FindCover(work[..], iv, 0) == FindCover(work[..], iv, i)
    {
      if Contains(work[i], iv) {
        return Some(i);
      }
    }
    return None;
  }

  method ApplyDelete(
    work: array<PhaseInterval>, req: EditRequest) returns (out: array<PhaseInterval>, err: Option<EditError>)
    modifies work
    ensures err.None? ==> fresh(out)
    ensures Realizes(DeleteOp(old(work[..]), req), out[..], err)
    ensures err.Some? ==> work[..] == old(work[..])
  {
    out := work;
    if req.absorbInto == "" {
      return out, Some(AbsorbRequired);
    }
    var target := FindIndex(work, req.eventRef);
    if target.None? {
      return out, Some(Stale(req.eventRef));
    }
    var absorber := FindIndex(work, req.absorbInto);
    if absorber.None? {
      return out, Some(Stale(req.absorbInto));
    }
    var i, a := target.value, absorber.value;
    if a == i {
      return out, Some(SameInterval);
    }
    if work[a].end == work[i].start {
      work[a] := WithRef(work[a].(end := work[i].end));
    } else if work[a].start == work[i].end {
      work[a] := WithRef(work[a].(start := work[i].start));
    } else {
      return out, Some(NotAdjacent);
    }
    out := NewArray(work[..i] + work[i + 1..]);
    return out, None;
  }

  class Overlay {
    const base: array<PhaseInterval>

    constructor (base: array<PhaseInterval>)
      ensures this.base == base
    {
      this.base := base;
    }

    /** Edits a private copy: no clause lets this method write to `base`. */
    method Apply(req: EditRequest) returns (out: array<PhaseInterval>, err: Option<EditError>)
      ensures err.None? ==> fresh(out)
      ensures Realizes(EditorSpec.Apply(base[..], req), out[..], err)
    {
      out := base;
      if req.eligible <= 0 {
        return out, Some(EligibleRequired);
      }
      var work := NewArray(base[..]);
      SortInPlace(work);
      if work.Length == 0 {
        return out, Some(NoStream);
      }
      out, err := Dispatch(work, req);
      if err.Some? {
        return out, err;
      }
      err := ValidateStream(out, req.eligible);
    }

    method Dispatch(
      work: array<PhaseInterval>, req: EditRequest) returns (out: array<PhaseInterval>, err: Option<EditError>)
      modifies work
      ensures err.None? ==> out == work || fresh(out)
      ensures Realizes(Transform(old(work[..]), req), out[..], err)
    {
      out := work;
      match req.op {
        case Accept => err := ApplyAccept(work, req);
        case Relabel => err := ApplyRelabel(work, req);
        case Split => out, err := ApplySplit(work, req);
        case Merge => out, err := ApplyMerge(work, req);
        case Move => err := ApplyMove(work, req);
        case Add => out, err := ApplyAdd(work, req);
        case Delete => out, err := ApplyDelete(work, req);
        case UnknownOp(_) => err := Some(NoSuchOperation);
      }
    }
  }
}
