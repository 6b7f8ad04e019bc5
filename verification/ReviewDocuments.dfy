/** One review document: what every accepted mutation keeps and adds. */
module ReviewDocuments {
  import opened Wrappers
  import opened Phases
  import opened EventRefs
  import opened EditorSpec
  import opened ReviewModel
  import EditorProperties

  // ---- the invariant ----

  ghost predicate SnapshotsNumbered(snapshots: seq<FinalSnapshot>) {
    forall k :: 0 <= k < |snapshots| ==> snapshots[k].id.SnapshotId? && snapshots[k].id.n == k + 1
  }

  ghost predicate TokensUsable(d: Review) {
    && d.revision == Digest(PayloadOf(d))
    && (forall k :: 0 <= k < |d.decisions| ==> Usable(d.decisions[k].basedOn))
    && (forall k :: 0 <= k < |d.snapshots| ==> Usable(d.snapshots[k].decision.basedOn))
  }

  /** Reviewed means that the last snapshot is named. */
  ghost predicate SignConsistent(d: Review) {
    && (d.status == Reviewed <==> d.current != NoId)
    && (d.current != NoId ==>
          d.snapshots != [] && d.decisions != [] && d.current == d.snapshots[|d.snapshots| - 1].id)
  }

  ghost predicate DocInvariant(d: Review) {
    SnapshotsNumbered(d.snapshots) && TokensUsable(d) && SignConsistent(d)
  }

  /** The last snapshot shows the current stream, read against this machine output, and
      the latest decision. */
  ghost predicate SignedBy(d: Review, machine: Machine) {
    && d.snapshots != [] && d.decisions != []
    && var last := d.snapshots[|d.snapshots| - 1];
       && d.current == last.id
       && last.decision == d.decisions[|d.decisions| - 1]
       && last.stream == SortByStart(CurrentStream(d, machine))
       && ValidStream(last.stream, machine.eligible)
  }

  ghost predicate Grows(d: Review, d': Review) {
    && d.corrections <= d'.corrections
    && d.phaseCorrections <= d'.phaseCorrections
    && d.decisions <= d'.decisions
    && d.snapshots <= d'.snapshots
  }

  lemma {:induction false} FindsLast(snapshots: seq<FinalSnapshot>, offset: nat)
    requires snapshots != []
    requires forall k :: 0 <= k < |snapshots| ==> snapshots[k].id.SnapshotId? && snapshots[k].id.n == k + 1 + offset
    ensures FindSnapshot(snapshots, snapshots[|snapshots| - 1].id) == Some(snapshots[|snapshots| - 1])
  {
    if |snapshots| > 1 {
      FindsLast(snapshots[1..], offset + 1);
    }
  }

  lemma SignedIsUsable(d: Review)
    requires DocInvariant(d) && d.current != NoId
    ensures HasUsableDecision(d)
  {
    FindsLast(d.snapshots, 0);
    hide FindSnapshot;
  }

  /** Reading a reachable document back changes nothing. */
  lemma NormalizeKeeps(d: Review)
    requires DocInvariant(d)
    ensures Normalize(d) == d
  {
    if d.current != NoId {
      SignedIsUsable(d);
    }
    hide HasUsableDecision, SnapshotsNumbered;
  }

  lemma FreshIsSound(m: MatchId)
    ensures DocInvariant(Fresh(m))
  {
  }

  // ---- the six mutations keep it ----

  /** Invalidating withdraws any sign-off and touches no history; on an unsigned document
      it changes nothing. */
  lemma InvalidateWithdraws(d: Review)
    ensures var r := InvalidateFinal(d);
      && r.status != Reviewed && r.current == NoId && SignConsistent(r)
      && r == d.(status := r.status, current := r.current)
      && (d.status != Reviewed && d.current == NoId <==> r == d)
  {
  }

  /** All that a mutation other than a sign-off or a status change has to show. */
  ghost predicate Withdrawn(d: Review, d': Review) {
    && d'.status != Reviewed && d'.current == NoId
    && d'.snapshots == d.snapshots
    && d'.revision == Digest(PayloadOf(d'))
    && (d'.decisions == d.decisions
        || (|d'.decisions| == |d.decisions| + 1 && d'.decisions[..|d.decisions|] == d.decisions
            && d'.decisions[|d.decisions|].basedOn == d.revision))
  }

  lemma WithdrawnIsSound(d: Review, d': Review)
    requires DocInvariant(d) && Withdrawn(d, d')
    ensures DocInvariant(d')
  {
    forall k | 0 <= k < |d'.decisions| ensures Usable(d'.decisions[k].basedOn) {
      if k < |d.decisions| { assert d'.decisions[k] == d'.decisions[..|d.decisions|][k]; }
    }
  }

  lemma CorrectionWithdraws(d: Review, m: MatchId, cmd: Command, now: int)
    requires cmd.AddCorrection? && AddCorrectionTo(d, m, cmd.correction, cmd.truth, now).Ok?
    ensures Withdrawn(d, AddCorrectionTo(d, m, cmd.correction, cmd.truth, now).value.0)
  {
  }

  lemma EditWithdraws(d: Review, m: MatchId, cmd: Command, now: int)
    requires cmd.EditPhases? && EditPhasesOf(d, m, cmd, now).Ok?
    ensures Withdrawn(d, EditPhasesOf(d, m, cmd, now).value.0)
  {
    hide SortByStart, EditorSpec.Apply, WithRefs;
  }

  lemma OverlayWithdraws(d: Review, m: MatchId, cmd: Command, now: int)
    requires cmd.SetOverlay?
    ensures Withdrawn(d, SetOverlayOf(d, m, cmd.effective, cmd.author, now).value.0)
  {
  }

  lemma DecisionWithdraws(d: Review, m: MatchId, cmd: Command, now: int)
    requires cmd.DecideCategory? && DecideCategoryOf(d, m, cmd, now).Ok?
    ensures Withdrawn(d, DecideCategoryOf(d, m, cmd, now).value.0)
  {
    hide TrimSpace;
  }

  /** A status change withdraws the sign-off or leaves everything but the token. */
  lemma StatusKeeps(d: Review, m: MatchId, cmd: Command, now: int)
    requires DocInvariant(d) && cmd.SetStatus?
    requires SetStatusOf(d, m, cmd.status, cmd.author, cmd.expected, now).Ok?
    ensures var d' := SetStatusOf(d, m, cmd.status, cmd.author, cmd.expected, now).value.0;
      && DocInvariant(d')
      && (d'.current != NoId ==> d' == d.(status := d'.status, revision := d'.revision))
  {
  }

  /** What a sign-off adds, and what it checked. */
  lemma FinalizeSigns(d: Review, m: MatchId, cmd: Command, now: int)
    requires cmd.FinalizeReview? && FinalizeReviewOf(d, m, cmd, now).Ok?
    ensures d.decisions != []
    ensures var d' := FinalizeReviewOf(d, m, cmd, now).value.0; var n := |d.snapshots|;
      && |d'.snapshots| == n + 1 && d'.snapshots[..n] == d.snapshots
      && d'.status == Reviewed && d'.current == d'.snapshots[n].id == SnapshotId(m, n + 1)
      && d'.corrections == d.corrections && d'.phaseCorrections == d.phaseCorrections && d'.decisions == d.decisions &&
           d'.effective == d.effective
      && d'.revision == Digest(PayloadOf(d'))
      && d'.snapshots[n].decision == d.decisions[|d.decisions| - 1]
      && d'.snapshots[n].stream == SortByStart(CurrentStream(d', cmd.machine))
      && ValidStream(d'.snapshots[n].stream, cmd.machine.eligible)
  {
    EditorProperties.FaultMeansInvalid(SortByStart(CurrentStream(d, cmd.machine)), cmd.machine.eligible);
    hide ValidStream;
    hide SortByStart;
    hide StreamFault;
    hide TrimSpace;
    hide ChecklistComplete;
  }

  lemma FinalizeIsSound(d: Review, m: MatchId, cmd: Command, now: int)
    requires DocInvariant(d) && cmd.FinalizeReview? && FinalizeReviewOf(d, m, cmd, now).Ok?
    ensures var d' := FinalizeReviewOf(d, m, cmd, now).value.0; DocInvariant(d') && SignedBy(d', cmd.machine)
  {
    FinalizeSigns(d, m, cmd, now);
    var d' := FinalizeReviewOf(d, m, cmd, now).value.0;
    hide FinalizeReviewOf, ValidStream, SortByStart, CurrentStream, SnapshotsNumbered, TokensUsable, PayloadOf;
    hide SignConsistent, SignedBy;
    OneMoreSnapshot(d, d', m);
    LastSigns(d', cmd.machine);
  }

  lemma LastSigns(d: Review, machine: Machine)
    requires d.decisions != [] && d.snapshots != [] && d.status == Reviewed
    requires var last := d.snapshots[|d.snapshots| - 1];
      && d.current == last.id != NoId && last.decision == d.decisions[|d.decisions| - 1]
      && last.stream == SortByStart(CurrentStream(d, machine)) && ValidStream(last.stream, machine.eligible)
    ensures SignConsistent(d) && SignedBy(d, machine)
  {
    hide ValidStream, SortByStart, CurrentStream;
  }

  lemma OneMoreSnapshot(d: Review, d': Review, m: MatchId)
    requires SnapshotsNumbered(d.snapshots) && TokensUsable(d) && d'.revision == Digest(PayloadOf(d'))
    requires d'.decisions == d.decisions != []
    requires var n := |d.snapshots|;
      && |d'.snapshots| == n + 1 && d'.snapshots[..n] == d.snapshots
      && d'.snapshots[n].id == SnapshotId(m, n + 1) && d'.snapshots[n].decision == d.decisions[|d.decisions| - 1]
    ensures SnapshotsNumbered(d'.snapshots) && TokensUsable(d')
  {
    assert forall k :: 0 <= k < |d.snapshots| ==> d'.snapshots[k] == d'.snapshots[..|d.snapshots|][k];
  }

  /** Every accepted mutation leaves a sound document. */
  lemma MutateIsSound(d: Review, m: MatchId, cmd: Command, now: int)
    requires DocInvariant(d) && Mutate(d, m, cmd, now).Ok?
    ensures DocInvariant(Mutate(d, m, cmd, now).value.0)
  {
    MutateSigns(d, m, cmd, now, Machine(0, [], "", "", ""));
    hide DocInvariant, Mutate;
  }

  /** A sound document stays signed only through status changes; any other mutation
      withdraws the sign-off or replaces it. */
  lemma MutateSigns(d: Review, m: MatchId, cmd: Command, now: int, machine: Machine)
    requires DocInvariant(d) && Mutate(d, m, cmd, now).Ok?
    ensures var d' := Mutate(d, m, cmd, now).value.0;
      && DocInvariant(d')
      && (cmd.FinalizeReview? ==> SignedBy(d', cmd.machine))
      && (!cmd.FinalizeReview? && d'.current != NoId && SignedBy(d, machine) ==> SignedBy(d', machine))
      && (!cmd.FinalizeReview? && d'.current != NoId ==> d.current != NoId)
  {
    var d' := Mutate(d, m, cmd, now).value.0;
    MutateIs(d, m, cmd, now);
    hide Mutate, AddCorrectionTo, EditPhasesOf, SetOverlayOf, SetStatusOf, DecideCategoryOf, FinalizeReviewOf;
    hide DocInvariant, SortByStart, ValidStream;
    match cmd {
      case AddCorrection(_, _) => CorrectionWithdraws(d, m, cmd, now); WithdrawnIsSound(d, d');
      case EditPhases(_, _, _, _, _) => EditWithdraws(d, m, cmd, now); WithdrawnIsSound(d, d');
      case SetOverlay(_, _) => OverlayWithdraws(d, m, cmd, now); WithdrawnIsSound(d, d');
      case SetStatus(_, _, _) => StatusKeeps(d, m, cmd, now);
      case DecideCategory(_, _, _, _, _, _, _, _) => DecisionWithdraws(d, m, cmd, now); WithdrawnIsSound(d, d');
      case FinalizeReview(_, _, _, _, _, _) => FinalizeIsSound(d, m, cmd, now);
    }
  }

  lemma MutateIs(d: Review, m: MatchId, cmd: Command, now: int)
    ensures Mutate(d, m, cmd, now) ==
      match cmd
      case AddCorrection(c, truth) => AddCorrectionTo(d, m, c, truth, now)
      case EditPhases(_, _, _, _, _) => EditPhasesOf(d, m, cmd, now)
      case SetOverlay(effective, author) => SetOverlayOf(d, m, effective, author, now)
      case SetStatus(status, author, expected) => SetStatusOf(d, m, status, author, expected, now)
      case DecideCategory(_, _, _, _, _, _, _, _) => DecideCategoryOf(d, m, cmd, now)
      case FinalizeReview(_, _, _, _, _, _) => FinalizeReviewOf(d, m, cmd, now)
  {
  }

  // ---- what each adds ----

  function ActionOf(cmd: Command): Action {
    match cmd
    case AddCorrection(_, _) => CorrectionAdded
    case EditPhases(_, _, _, _, _) => PhaseCorrected
    case SetOverlay(_, _) => OverlayApplied
    case SetStatus(_, _, _) => StatusSet
    case DecideCategory(_, _, _, _, _, _, _, _) => CategoryDecided
    case FinalizeReview(_, _, _, _, _, _) => FinalSigned
  }

  /** Each mutation extends at most the one history of its kind, by one record. */
  lemma MutateShape(d: Review, m: MatchId, cmd: Command, now: int)
    requires Mutate(d, m, cmd, now).Ok?
    ensures var (d', e) := Mutate(d, m, cmd, now).value;
      && e.action == ActionOf(cmd)
      && (if cmd.AddCorrection?
          then |d'.corrections| == |d.corrections| + 1 && d.corrections <= d'.corrections &&
                 d'.corrections[|d.corrections|].id == e.subject
          else d'.corrections == d.corrections)
      && (if cmd.EditPhases?
          then |d'.phaseCorrections| == |d.phaseCorrections| + 1 && d.phaseCorrections <= d'.phaseCorrections &&
                 d'.phaseCorrections[|d.phaseCorrections|].id == e.subject
          else d'.phaseCorrections == d.phaseCorrections)
      && (if cmd.DecideCategory?
          then |d'.decisions| == |d.decisions| + 1 && d.decisions <= d'.decisions &&
                 d'.decisions[|d.decisions|].id == e.subject
          else d'.decisions == d.decisions)
      && (if cmd.FinalizeReview?
          then |d'.snapshots| == |d.snapshots| + 1 && d.snapshots <= d'.snapshots &&
                 d'.snapshots[|d.snapshots|].id == e.subject
          else d'.snapshots == d.snapshots)
  {
    hide TrimSpace;
    hide SortByStart;
    hide EditorSpec.Apply;
    hide StreamFault;
    hide ChecklistComplete;
    hide HasUsableDecision;
    match cmd {
      case AddCorrection(_, _) =>
      case EditPhases(_, _, _, _, _) =>
      case SetOverlay(_, _) =>
      case SetStatus(_, _, _) =>
      case DecideCategory(_, _, _, _, _, _, _, _) =>
      case FinalizeReview(_, _, _, _, _, _) =>
    }
  }

  lemma MutateGrows(d: Review, m: MatchId, cmd: Command, now: int)
    requires Mutate(d, m, cmd, now).Ok?
    ensures Grows(d, Mutate(d, m, cmd, now).value.0)
  {
    MutateShape(d, m, cmd, now);
    hide Mutate;
  }

  // ---- histories ----

  /** The identifiers one kind of history of a document carries, in order. */
  function History(d: Review, action: Action): seq<EntityId> {
    match action
    case CorrectionAdded => seq(|d.corrections|, k requires 0 <= k < |d.corrections| => d.corrections[k].id)
    case PhaseCorrected => seq(|d.phaseCorrections|,
           k requires 0 <= k < |d.phaseCorrections| => d.phaseCorrections[k].id)
    case CategoryDecided => seq(|d.decisions|, k requires 0 <= k < |d.decisions| => d.decisions[k].id)
    case FinalSigned => seq(|d.snapshots|, k requires 0 <= k < |d.snapshots| => d.snapshots[k].id)
    case _ => []
  }

  /** Overlays and status changes leave no history of their own. */
  predicate LeavesHistory(action: Action) {
    action != OverlayApplied && action != StatusSet
  }

  /** A mutation adds its subject to the history of its action, and to no other. */
  lemma MutationEntersHistory(d: Review, m: MatchId, cmd: Command, now: int, action: Action)
    requires Mutate(d, m, cmd, now).Ok? && LeavesHistory(action)
    ensures var (d', e) := Mutate(d, m, cmd, now).value;
      && e.action == ActionOf(cmd)
      && History(d', action) == History(d, action) + (if action == e.action then [e.subject] else [])
  {
    MutateShape(d, m, cmd, now);
    var (d', e) := Mutate(d, m, cmd, now).value;
    hide Mutate, History;
    if action == e.action { HistoryExtends(d, d', action, e.subject); } else { HistoryStays(d, d', action); }
  }

  lemma HistoryStays(d: Review, d': Review, action: Action)
    requires action == CorrectionAdded ==> d'.corrections == d.corrections
    requires action == PhaseCorrected ==> d'.phaseCorrections == d.phaseCorrections
    requires action == CategoryDecided ==> d'.decisions == d.decisions
    requires action == FinalSigned ==> d'.snapshots == d.snapshots
    ensures History(d', action) == History(d, action)
  {}

  lemma HistoryExtends(d: Review, d': Review, action: Action, id: EntityId)
    requires LeavesHistory(action)
    requires action == CorrectionAdded ==>
               |d'.corrections| == |d.corrections| + 1 && d.corrections <= d'.corrections &&
               d'.corrections[|d.corrections|].id == id
    requires action == PhaseCorrected ==>
               |d'.phaseCorrections| == |d.phaseCorrections| + 1 && d.phaseCorrections <= d'.phaseCorrections &&
               d'.phaseCorrections[|d.phaseCorrections|].id == id
    requires action == CategoryDecided ==>
               |d'.decisions| == |d.decisions| + 1 && d.decisions <= d'.decisions &&
               d'.decisions[|d.decisions|].id == id
    requires action == FinalSigned ==>
               |d'.snapshots| == |d.snapshots| + 1 && d.snapshots <= d'.snapshots &&
               d'.snapshots[|d.snapshots|].id == id
    ensures History(d', action) == History(d, action) + [id]
  {
    match action {
      case CorrectionAdded =>
      case PhaseCorrected =>
      case CategoryDecided =>
      case FinalSigned =>
    }
  }

  // ---- the chain of phase corrections ----

  /** Each correction starts where the one before it ended, and the first at the machine
      stream its own edit was read against. */
  ghost predicate Chained(d: Review, machines: seq<Machine>) {
    var pcs := d.phaseCorrections;
    && |machines| == |pcs|
    && (pcs == [] ==> d.effective == [])
    && (pcs != [] ==> pcs[0].before == machines[0].intervals && d.effective == pcs[|pcs| - 1].after)
    && (forall k :: 0 < k < |pcs| ==> pcs[k].before == pcs[k - 1].after)
    && (forall k :: 0 <= k < |pcs| ==> RecordsItsEdit(pcs[k], machines[k]))
  }

  /** The record alone reproduces the edit, and its result is an official stream. */
  ghost predicate RecordsItsEdit(pc: PhaseCorrection, machine: Machine) {
    var redone := EditorSpec.Apply(pc.before, pc.request);
    redone.Ok? && pc.after == WithRefs(redone.value) && ValidStream(pc.after, machine.eligible)
  }

  lemma RefsKeepValidity(s: Stream, eligible: int)
    requires ValidStream(s, eligible)
    ensures ValidStream(WithRefs(s), eligible)
  {
    hide BoundsRef;
  }

  /** On a chained document the next edit starts where the last one ended, whatever the
      machine has computed since. */
  lemma NextEditStartsAtEnd(d: Review, machines: seq<Machine>, machine: Machine)
    requires Chained(d, machines)
    ensures var pcs := d.phaseCorrections;
      CurrentStream(d, machine) == if pcs == [] then machine.intervals else pcs[|pcs| - 1].after
  {
    hide RecordsItsEdit, SortByStart;
    var pcs := d.phaseCorrections;
    if pcs != [] {
      assert RecordsItsEdit(pcs[|pcs| - 1], machines[|pcs| - 1]);
      RecordedIsSorted(pcs[|pcs| - 1], machines[|pcs| - 1]);
    }
  }

  lemma RecordedIsSorted(pc: PhaseCorrection, machine: Machine)
    requires RecordsItsEdit(pc, machine)
    ensures pc.after != [] && SortByStart(pc.after) == pc.after
  {
    hide EditorSpec.Apply, WithRefs;
    EditorProperties.SortKeepsTiling(pc.after, 0, machine.eligible);
  }

  lemma EditRecordsItself(d: Review, m: MatchId, cmd: Command, now: int)
    requires cmd.EditPhases? && EditPhasesOf(d, m, cmd, now).Ok?
    ensures var d' := EditPhasesOf(d, m, cmd, now).value.0; var n := |d.phaseCorrections|;
      && |d'.phaseCorrections| == n + 1 && d'.phaseCorrections[..n] == d.phaseCorrections
      && d'.phaseCorrections[n].before == CurrentStream(d, cmd.machine)
      && d'.effective == d'.phaseCorrections[n].after
      && RecordsItsEdit(d'.phaseCorrections[n], cmd.machine)
  {
    var base := CurrentStream(d, cmd.machine);
    var request := cmd.request.(eligible := cmd.machine.eligible);
    EditorProperties.AcceptedMeansValid(base, request);
    RefsKeepValidity(EditorSpec.Apply(base, request).value, cmd.machine.eligible);
    hide EditorSpec.Apply;
    hide ValidStream;
    hide SortByStart;
    hide WithRefs;
  }

  lemma ChainExtends(d: Review, d': Review, machines: seq<Machine>, machine: Machine)
    requires Chained(d, machines)
    requires var n := |d.phaseCorrections|;
      && |d'.phaseCorrections| == n + 1 && d'.phaseCorrections[..n] == d.phaseCorrections
      && d'.phaseCorrections[n].before == (if n == 0 then machine.intervals else d.phaseCorrections[n - 1].after)
      && d'.effective == d'.phaseCorrections[n].after
      && RecordsItsEdit(d'.phaseCorrections[n], machine)
    ensures Chained(d', machines + [machine])
  {
    hide RecordsItsEdit;
    var n := |d.phaseCorrections|;
    assert forall k :: 0 <= k < n ==> d'.phaseCorrections[k] == d'.phaseCorrections[..n][k];
  }

  lemma OthersKeepStreams(d: Review, m: MatchId, cmd: Command, now: int)
    requires Mutate(d, m, cmd, now).Ok? && !cmd.SetOverlay? && !cmd.EditPhases?
    ensures var d' := Mutate(d, m, cmd, now).value.0;
      d'.phaseCorrections == d.phaseCorrections && d'.effective == d.effective
  {
    hide TrimSpace;
    hide SortByStart;
    hide StreamFault;
  }

  lemma MutateChains(d: Review, m: MatchId, cmd: Command, now: int, machines: seq<Machine>)
    requires Chained(d, machines) && Mutate(d, m, cmd, now).Ok? && !cmd.SetOverlay?
    ensures Chained(Mutate(d, m, cmd, now).value.0, if cmd.EditPhases? then machines + [cmd.machine] else machines)
  {
    var d' := Mutate(d, m, cmd, now).value.0;
    if cmd.EditPhases? {
      MutateIs(d, m, cmd, now);
      EditRecordsItself(d, m, cmd, now);
      NextEditStartsAtEnd(d, machines, cmd.machine);
      hide *;
      ChainExtends(d, d', machines, cmd.machine);
    } else {
      OthersKeepStreams(d, m, cmd, now);
      SameStreamsSameChain(d, d', machines);
      hide *;
    }
  }

  lemma SameStreamsSameChain(d: Review, d': Review, machines: seq<Machine>)
    requires Chained(d, machines)
    ensures d'.phaseCorrections == d.phaseCorrections && d'.effective == d.effective ==> Chained(d', machines)
  {
    hide RecordsItsEdit;
  }

  // ---- guarded mutations ----

  /** The mutations that must quote the revision they were based on. */
  predicate Guarded(cmd: Command) {
    cmd.EditPhases? || cmd.DecideCategory? || cmd.FinalizeReview?
  }

  function Weight(p: Payload): nat {
    |p.phaseCorrections| + |p.decisions| + |p.snapshots|
  }

  lemma GuardedAdvances(d: Review, m: MatchId, cmd: Command, now: int)
    requires Mutate(d, m, cmd, now).Ok? && Guarded(cmd)
    ensures cmd.expected == d.revision
    ensures Weight(PayloadOf(Mutate(d, m, cmd, now).value.0)) == Weight(PayloadOf(d)) + 1
  {
    MutateShape(d, m, cmd, now);
    hide TrimSpace;
    hide SortByStart;
    hide EditorSpec.Apply;
    hide StreamFault;
    hide ChecklistComplete;
  }

  lemma HeavierWhenGrown(d: Review, d': Review)
    requires Grows(d, d')
    ensures Weight(PayloadOf(d)) <= Weight(PayloadOf(d'))
  {
  }
}
