/** The seven phase-review operations on values: guards in the order the program checks
    them, the resulting stream, and the whole-stream validation that follows. */
module EditorSpec {
  import opened Wrappers
  import opened Phases
  import opened EventRefs

  datatype PhaseOp = Accept | Relabel | Split | Merge | Move | Add | Delete | UnknownOp(name: string)

  datatype EditRequest = EditRequest(
    op: PhaseOp,
    eventRef: string,
    effective: Option<PhaseInterval>,
    splitSecond: Option<int>,
    mergeRight: string,
    absorbInto: string,
    eligible: int)

  datatype EditError =
    | Stale(what: string)
    | EligibleRequired | NoStream | NoSuchOperation
    | EffectiveRequired | BoundariesChanged | BadLabel(phase: Phase)
    | SplitSecondRequired | BadSplitSecond
    | SameInterval | NotAdjacent | AbsorbRequired
    | MoveRelabels | TwoBoundaries | NoNeighbor | BadBoundary | BoundaryUnchanged
    | BadBounds | ExceedsEligible
    | FirstStartNotZero | FinalEndNotEligible | NoWidth | Overlap | Gap | LaningReentry

  type EditResult = Result<Stream, EditError>

  // ---- resolving references ----

  predicate Matches(iv: PhaseInterval, ref: Ref) {
    match ref
    case Closed(start, end) => iv.start == start && iv.end == end
    case OpenEnd(start) => iv.start == start
  }

  /** The first interval from `i` on that the reference names. */
  function FindFrom(s: Stream, ref: Ref, i: nat): (r: Option<nat>)
    requires i <= |s|
    decreases |s| - i
    ensures r.Some? ==> i <= r.value < |s| && Matches(s[r.value], ref) && forall j :: i <= j < r.value ==>
              !Matches(s[j], ref)
    ensures r.None? ==> forall j :: i <= j < |s| ==> !Matches(s[j], ref)
  {
    if i == |s| then None else if Matches(s[i], ref) then Some(i) else FindFrom(s, ref, i + 1)
  }

  function FindByRef(s: Stream, text: string): (r: Option<nat>)
    ensures r.Some? ==> r.value < |s|
  {
    if text == "" then None
    else
      match ParseEventRef(text)
      case None => None
      case Some(ref) => FindFrom(s, ref, 0)
  }

  // ---- sorting by start ----

  function InsertByStart(s: Stream, iv: PhaseInterval): Stream {
    if s == [] || s[|s| - 1].start <= iv.start then s + [iv]
    else InsertByStart(s[..|s| - 1], iv) + [s[|s| - 1]]
  }

  function SortByStart(s: Stream): Stream {
    if s == [] then [] else InsertByStart(SortByStart(s[..|s| - 1]), s[|s| - 1])
  }

  // ---- the operations ----

  function AcceptOp(s: Stream, req: EditRequest): EditResult {
    if FindByRef(s, req.eventRef).None? then Err(Stale(req.eventRef)) else Ok(s)
  }

  function RelabelOp(s: Stream, req: EditRequest): EditResult {
    match FindByRef(s, req.eventRef)
    case None => Err(Stale(req.eventRef))
    case Some(i) =>
      if req.effective.None? then Err(EffectiveRequired)
      else
        var eff := req.effective.value;
        if eff.start != s[i].start || eff.end != s[i].end then Err(BoundariesChanged)
        else if !Official(eff.phase) then Err(BadLabel(eff.phase))
        else Ok(s[i := WithRef(s[i].(phase := eff.phase))])
  }

  function SplitOp(s: Stream, req: EditRequest): EditResult {
    match FindByRef(s, req.eventRef)
    case None => Err(Stale(req.eventRef))
    case Some(i) =>
      if req.splitSecond.None? then Err(SplitSecondRequired)
      else
        var at := req.splitSecond.value;
        if at <= s[i].start || at >= s[i].end then Err(BadSplitSecond)
        else Ok(s[..i] + [WithRef(s[i].(end := at)), WithRef(s[i].(start := at))] + s[i + 1..])
  }

  function MergeOp(s: Stream, req: EditRequest): EditResult {
    match (FindByRef(s, req.eventRef), FindByRef(s, req.mergeRight))
    case (None, _) => Err(Stale(req.eventRef))
    case (Some(_), None) => Err(Stale(req.mergeRight))
    case (Some(a), Some(b)) =>
      if a == b then Err(SameInterval) else MergeAt(s, if a < b then a else b, if a < b then b else a, req.effective)
  }

  function MergeAt(s: Stream, li: nat, ri: nat, effective: Option<PhaseInterval>): EditResult
    requires li < ri < |s|
  {
    var l, r := s[li], s[ri];
    if l.end != r.start then Err(NotAdjacent)
    else
      var phase := if effective.Some? && effective.value.phase != NO_LABEL then effective.value.phase else l.phase;
      if !Official(phase) then Err(BadLabel(phase))
      else Ok(s[..li] + [WithRef(PhaseInterval(l.start, r.end, phase, l.roundIndex, ""))] + s[ri + 1..])
  }

  function MoveOp(s: Stream, req: EditRequest): EditResult {
    match FindByRef(s, req.eventRef)
    case None => Err(Stale(req.eventRef))
    case Some(i) =>
      if req.effective.None? then Err(EffectiveRequired)
      else
        var eff := req.effective.value;
        if eff.phase != NO_LABEL && eff.phase != s[i].phase then Err(MoveRelabels)
        else if eff.start != s[i].start && eff.end != s[i].end then Err(TwoBoundaries)
        else if eff.start != s[i].start then MoveStart(s, i, eff.start)
        else if eff.end != s[i].end then MoveEnd(s, i, eff.end)
        else Err(BoundaryUnchanged)
  }

  function MoveStart(s: Stream, i: nat, at: int): EditResult
    requires i < |s|
  {
    if i == 0 then Err(NoNeighbor)
    else if at <= s[i - 1].start || at >= s[i].end then Err(BadBoundary)
    else Ok(s[i - 1 := WithRef(s[i - 1].(end := at))][i := WithRef(s[i].(start := at))])
  }

  function MoveEnd(s: Stream, i: nat, at: int): EditResult
    requires i < |s|
  {
    if i == |s| - 1 then Err(NoNeighbor)
    else if at <= s[i].start || at >= s[i + 1].end then Err(BadBoundary)
    else Ok(s[i + 1 := WithRef(s[i + 1].(start := at))][i := WithRef(s[i].(end := at))])
  }

  function ShapeFault(effective: Option<PhaseInterval>, eligible: int): Option<EditError> {
    if effective.None? then Some(EffectiveRequired)
    else
      var iv := effective.value;
      if !Official(iv.phase) then Some(BadLabel(iv.phase))
      else if iv.start < 0 || iv.end <= iv.start then Some(BadBounds)
      else if eligible > 0 && iv.end > eligible then Some(ExceedsEligible)
      else None
  }

  predicate Contains(outer: PhaseInterval, inner: PhaseInterval) {
    outer.start <= inner.start && inner.end <= outer.end
  }

  /** The first interval from `i` on that contains `iv`. */
  function FindCover(s: Stream, iv: PhaseInterval, i: nat): (r: Option<nat>)
    requires i <= |s|
    decreases |s| - i
    ensures r.Some? ==> i <= r.value < |s| && Contains(s[r.value], iv) && forall j :: i <= j < r.value ==>
              !Contains(s[j], iv)
    ensures r.None? ==> forall j :: i <= j < |s| ==> !Contains(s[j], iv)
  {
    if i == |s| then None else if Contains(s[i], iv) then Some(i) else FindCover(s, iv, i + 1)
  }

  function Part(start: int, end: int, phase: Phase, roundIndex: int): Stream {
    if end > start then [WithRef(PhaseInterval(start, end, phase, roundIndex, ""))] else []
  }

  function AddOp(s: Stream, req: EditRequest): EditResult {
    var fault := ShapeFault(req.effective, req.eligible);
    if fault.Some? then Err(fault.value)
    else
      var iv := req.effective.value;
      match FindCover(s, iv, 0)
      case None => Err(Stale(CanonicalEventRef(iv)))
      case Some(c) =>
        var orig := s[c];
        if iv.start == orig.start && iv.end == orig.end then Ok(s[c := WithRef(orig.(phase := iv.phase))])
        else
          Ok(s[..c]
             + (Part(orig.start, iv.start, orig.phase, orig.roundIndex)
                + Part(iv.start, iv.end, iv.phase, orig.roundIndex)
                + Part(iv.end, orig.end, orig.phase, orig.roundIndex))
             + s[c + 1..])
  }

  function DeleteOp(s: Stream, req: EditRequest): EditResult {
    if req.absorbInto == "" then Err(AbsorbRequired)
    else
      match (FindByRef(s, req.eventRef), FindByRef(s, req.absorbInto))
      case (None, _) => Err(Stale(req.eventRef))
      case (Some(_), None) => Err(Stale(req.absorbInto))
      case (Some(i), Some(a)) =>
        if a == i then Err(SameInterval)
        else if s[a].end == s[i].start then Ok(Without(s[a := WithRef(s[a].(end := s[i].end))], i))
        else if s[a].start == s[i].end then Ok(Without(s[a := WithRef(s[a].(start := s[i].start))], i))
        else Err(NotAdjacent)
  }

  function Without(s: Stream, i: nat): Stream
    requires i < |s|
  {
    s[..i] + s[i + 1..]
  }

  function Transform(s: Stream, req: EditRequest): EditResult {
    match req.op
    case Accept => AcceptOp(s, req)
    case Relabel => RelabelOp(s, req)
    case Split => SplitOp(s, req)
    case Merge => MergeOp(s, req)
    case Move => MoveOp(s, req)
    case Add => AddOp(s, req)
    case Delete => DeleteOp(s, req)
    case UnknownOp(_) => Err(NoSuchOperation)
  }

  // ---- whole-stream validation ----

  /** The fault the scan finds from interval `i` on, given what it has seen before. */
  function ScanFault(s: Stream, i: nat, prevEnd: int, seenLaning: bool, sawExit: bool): Option<EditError>
    requires i <= |s|
    decreases |s| - i
  {
    if i == |s| then None
    else
      var iv := s[i];
      if !Official(iv.phase) then Some(BadLabel(iv.phase))
      else if iv.end <= iv.start then Some(NoWidth)
      else if i > 0 && iv.start < prevEnd then Some(Overlap)
      else if iv.start > prevEnd then Some(Gap)
      else if iv.phase == Laning && sawExit then Some(LaningReentry)
      else ScanFault(s, i + 1, iv.end, seenLaning || iv.phase == Laning, sawExit || (seenLaning && iv.phase != Laning))
  }

  /** The fault of a stream already in order of start. */
  function StreamFault(s: Stream, eligible: int): Option<EditError> {
    if s == [] then Some(NoStream)
    else if s[0].start != 0 then Some(FirstStartNotZero)
    else if s[|s| - 1].end != eligible then Some(FinalEndNotEligible)
    else ScanFault(s, 0, 0, false, false)
  }

  /** One operation: transform a sorted copy of the base, then validate the result. */
  function Apply(base: Stream, req: EditRequest): EditResult {
    if req.eligible <= 0 then Err(EligibleRequired)
    else if base == [] then Err(NoStream)
    else
      match Transform(SortByStart(base), req)
      case Err(e) => Err(e)
      case Ok(out) =>
        var sorted := SortByStart(out);
        match StreamFault(sorted, req.eligible)
        case Some(e) => Err(e)
        case None => Ok(sorted)
  }
}
