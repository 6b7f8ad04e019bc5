/** Review documents, the audit log and the six mutations, as functions on values. */
module ReviewModel {
  import opened Wrappers
  import opened Phases
  import opened EventRefs
  import opened EditorSpec

  type MatchId = string

  /** Identifiers are numbered per match; a kind, a match and a number determine one. */
  datatype EntityId = NoId | CorrectionId(matchId: MatchId, n: nat) | DecisionId(matchId: MatchId,
      n: nat) | SnapshotId(matchId: MatchId, n: nat)

  datatype Status = NoStatus | Pending | InProgress | Reviewed | OtherStatus(text: string)

  /** An optimistic-concurrency token. The digest is modelled as injective: two tokens
      are equal just when the digested payloads are. `Foreign` is any other text. */
  datatype Revision = NoRevision | Digest(payload: Payload) | Foreign(text: string)

  datatype Payload = Payload(
    corrections: seq<Correction>,
    phaseCorrections: seq<PhaseCorrection>,
    effective: Stream,
    status: Status,
    decisions: seq<CategoryDecision>,
    snapshots: seq<FinalSnapshot>,
    current: EntityId)

  datatype Correction = Correction(
    id: EntityId, kind: string, author: string, reason: string, appliedAt: int, algorithmVersion: string,
    replaySha: string, previousValue: string, effectiveValue: string, eventRef: string)

  datatype PhaseCorrection = PhaseCorrection(
    id: EntityId, request: EditRequest, author: string, reason: string, appliedAt: int, ruleVersion: string,
    replaySha: string, before: Stream, after: Stream, machineValue: Stream)

  datatype CategoryDecision = CategoryDecision(
    id: EntityId, machineCategory: string, effectiveCategory: string, decision: Verdict, replaySha: string,
    author: string, reason: string, appliedAt: int, basedOn: Revision)

  datatype Verdict = Confirm | Reclassify | Replacement | OtherVerdict(text: string)

  datatype Checklist = Checklist(streamReviewed: bool, rolesReviewed: bool, roleEvidence: string,
      experimentalAcknowledged: bool)

  datatype FinalSnapshot = FinalSnapshot(
    id: EntityId, replaySha: string, signedRevision: Revision, ruleVersion: string, stream: Stream,
    decision: CategoryDecision, checklist: Checklist, author: string, reason: string, signedAt: int)

  datatype Review = Review(
    matchId: MatchId,
    replaySha: string,
    corrections: seq<Correction>,
    phaseCorrections: seq<PhaseCorrection>,
    effective: Stream,
    revision: Revision,
    status: Status,
    decisions: seq<CategoryDecision>,
    snapshots: seq<FinalSnapshot>,
    current: EntityId)

  datatype Action = CorrectionAdded | PhaseCorrected | OverlayApplied | StatusSet | CategoryDecided | FinalSigned

  datatype AuditEntry = AuditEntry(seqNo: nat, appliedAt: int, author: string, action: Action, matchId: MatchId,
      subject: EntityId)

  /** What the server knows about a match from its own artifacts. */
  datatype Machine = Machine(eligible: int, intervals: Stream, ruleVersion: string, replaySha: string, category: string)

  datatype Truth = Truth(replaySha: string, algorithmVersion: string, value: string)

  const DEFAULT_RULE := "phase-rule"

  datatype Command =
    | AddCorrection(correction: Correction, truth: Truth)
    | EditPhases(machine: Machine, author: string, reason: string, request: EditRequest, expected: Revision)
    | SetOverlay(effective: Stream, author: string)
    | SetStatus(status: Status, author: string, expected: Revision)
    | DecideCategory(machine: Machine, verdict: Verdict, category: string, claimedCategory: string, claimedSha: string,
        author: string, reason: string, expected: Revision)
    | FinalizeReview(machine: Machine, claimedSha: string, checklist: Checklist, author: string, reason: string,
        expected: Revision)

  datatype ReviewError =
    | StaleRevision | Tampered | BadEdit(error: EditError)
    | SnapshotRequired | SnapshotUnknown | DecisionRevisionUnusable
    | IdentityRequired | CategoryMismatch | ShaMismatch | BadVerdict | ConfirmMustMatch | CategoryRequired
    | AuthorReasonRequired | RequirementsMissing | StreamOrReplayMissing | FinalStreamInvalid(error: EditError)
    | DecisionIdentityMismatch

  // ---- documents ----

  function PayloadOf(r: Review): Payload {
    Payload(r.corrections, r.phaseCorrections, r.effective, r.status, r.decisions, r.snapshots, r.current)
  }

  function Stamp(r: Review): Review {
    r.(revision := Digest(PayloadOf(r)))
  }

  function Fresh(matchId: MatchId): Review {
    Stamp(Review(matchId, "", [], [], [], NoRevision, Pending, [], [], NoId))
  }

  predicate Usable(revision: Revision) {
    revision.Digest?
  }

  /** The first stored snapshot with this identifier. */
  function FindSnapshot(snapshots: seq<FinalSnapshot>, id: EntityId): Option<FinalSnapshot> {
    if snapshots == [] then None
    else if snapshots[0].id == id then Some(snapshots[0])
    else FindSnapshot(snapshots[1..], id)
  }

  predicate HasUsableDecision(r: Review) {
    && r.decisions != []
    && Usable(r.decisions[|r.decisions| - 1].basedOn)
    && (r.current == NoId
        || match FindSnapshot(r.snapshots, r.current)
           case None => false
           case Some(snapshot) => Usable(snapshot.decision.basedOn))
  }

  function InvalidateFinal(r: Review): Review {
    if r.current != NoId || r.status == Reviewed then r.(current := NoId, status := InProgress) else r
  }

  function Started(r: Review): Review {
    if r.status == NoStatus || r.status == Pending then r.(status := InProgress) else r
  }

  /** Reading a current-schema document back from its file. */
  function Normalize(r: Review): Review {
    var untrusted := (r.status == Reviewed || r.current != NoId) && !HasUsableDecision(r);
    var r1 := if untrusted then InvalidateFinal(r) else r;
    var r2 := if r1.status == Reviewed && r1.current == NoId then r1.(status := InProgress) else r1;
    if !Usable(r2.revision) || untrusted then Stamp(r2) else r2
  }

  /** The stream an edit starts from and a sign-off signs. */
  function CurrentStream(r: Review, machine: Machine): Stream {
    if r.effective != [] then SortByStart(r.effective) else machine.intervals
  }

  function WithRefs(s: Stream): Stream {
    seq(|s|, i requires 0 <= i < |s| => WithRef(s[i]))
  }

  // ---- the six mutations ----

  type Mutation = Result<(Review, AuditEntry), ReviewError>

  function AddCorrectionTo(r: Review, m: MatchId, c: Correction, truth: Truth, now: int): Mutation {
    if c.previousValue != "" && truth.value != "" && c.previousValue != truth.value then Err(Tampered)
    else
      var id := CorrectionId(m, |r.corrections| + 1);
      var filed := c.(
        id := id,
        appliedAt := if c.appliedAt == 0 then now else c.appliedAt,
        previousValue := truth.value,
        replaySha := truth.replaySha,
        algorithmVersion := if truth.algorithmVersion == "" then DEFAULT_RULE else truth.algorithmVersion);
      var r1 := InvalidateFinal(r.(corrections := r.corrections + [filed]));
      var r2 := Started(if r1.replaySha == "" then r1.(replaySha := truth.replaySha) else r1);
      Ok((Stamp(r2), AuditEntry(0, now, c.author, CorrectionAdded, m, id)))
  }

  function EditPhasesOf(r: Review, m: MatchId, cmd: Command, now: int): Mutation
    requires cmd.EditPhases?
  {
    if cmd.expected == NoRevision || cmd.expected != r.revision then Err(StaleRevision)
    else
      var base := CurrentStream(r, cmd.machine);
      var request := cmd.request.(eligible := cmd.machine.eligible);
      match Apply(base, request)
      case Err(e) => Err(BadEdit(e))
      case Ok(out) =>
        var after := WithRefs(out);
        var id := CorrectionId(m, |r.phaseCorrections| + 1);
        var pc := PhaseCorrection(
          id, request, cmd.author, cmd.reason, now, cmd.machine.ruleVersion, cmd.machine.replaySha, base, after,
          WithRefs(cmd.machine.intervals));
        var r1 := InvalidateFinal(r.(phaseCorrections := r.phaseCorrections + [pc], effective := after));
        var r2 := Started(if r1.replaySha == "" then r1.(replaySha := cmd.machine.replaySha) else r1);
        Ok((Stamp(r2), AuditEntry(0, now, cmd.author, PhaseCorrected, m, id)))
  }

  function SetOverlayOf(r: Review, m: MatchId, effective: Stream, author: string, now: int): Mutation {
    Ok((Stamp(InvalidateFinal(r.(effective := effective))), AuditEntry(0, now, author, OverlayApplied, m, NoId)))
  }

  function SetStatusOf(r: Review, m: MatchId, status: Status, author: string, expected: Revision, now: int): Mutation {
    if expected == NoRevision || expected != r.revision then Err(StaleRevision)
    else if status == Reviewed && r.current == NoId then Err(SnapshotRequired)
    else if status == Reviewed && FindSnapshot(r.snapshots, r.current).None? then Err(SnapshotUnknown)
    else if status == Reviewed && !HasUsableDecision(r) then Err(DecisionRevisionUnusable)
    else
      var r1 := if status != Reviewed then r.(current := NoId) else r;
      Ok((Stamp(r1.(status := status)), AuditEntry(0, now, author, StatusSet, m, NoId)))
  }

  function DecideCategoryOf(r: Review, m: MatchId, cmd: Command, now: int): Mutation
    requires cmd.DecideCategory?
  {
    var machine := cmd.machine;
    if cmd.expected == NoRevision || cmd.expected != r.revision then Err(StaleRevision)
    else if TrimSpace(cmd.author) == "" || TrimSpace(cmd.reason) == "" || TrimSpace(machine.category) == "" ||
           machine.replaySha == "" then Err(IdentityRequired)
    else if cmd.claimedCategory != "" && cmd.claimedCategory != machine.category then Err(CategoryMismatch)
    else if cmd.claimedSha != "" && cmd.claimedSha != machine.replaySha then Err(ShaMismatch)
    else if cmd.verdict.OtherVerdict? then Err(BadVerdict)
    else if cmd.verdict == Confirm && cmd.category != "" && cmd.category != machine.category then Err(ConfirmMustMatch)
    else
      var category := if cmd.verdict == Confirm then machine.category else cmd.category;
      if TrimSpace(category) == "" then Err(CategoryRequired)
      else
        var id := DecisionId(m, |r.decisions| + 1);
        var d := CategoryDecision(
          id, machine.category, category, cmd.verdict, machine.replaySha, cmd.author, cmd.reason, now, r.revision);
        var r1 := Started(InvalidateFinal(r.(decisions := r.decisions + [d], replaySha := machine.replaySha)));
        Ok((Stamp(r1), AuditEntry(0, now, cmd.author, CategoryDecided, m, id)))
  }

  predicate ChecklistComplete(c: Checklist) {
    c.streamReviewed && c.rolesReviewed && TrimSpace(c.roleEvidence) != "" && c.experimentalAcknowledged
  }

  function FinalizeReviewOf(r: Review, m: MatchId, cmd: Command, now: int): Mutation
    requires cmd.FinalizeReview?
  {
    var machine := cmd.machine;
    if cmd.expected == NoRevision || cmd.expected != r.revision then Err(StaleRevision)
    else if TrimSpace(cmd.author) == "" || TrimSpace(cmd.reason) == "" then Err(AuthorReasonRequired)
    else if cmd.claimedSha != "" && cmd.claimedSha != machine.replaySha then Err(ShaMismatch)
    else if r.decisions == [] || !ChecklistComplete(cmd.checklist) then Err(RequirementsMissing)
    else if CurrentStream(r, machine) == [] || machine.replaySha == "" then Err(StreamOrReplayMissing)
    else
      var stream := SortByStart(CurrentStream(r, machine));
      match StreamFault(stream, machine.eligible)
      case Some(e) => Err(FinalStreamInvalid(e))
      case None =>
        var d := r.decisions[|r.decisions| - 1];
        if !Usable(d.basedOn) then Err(DecisionRevisionUnusable)
        else if d.replaySha != machine.replaySha ||
               (machine.category != "" && d.machineCategory != machine.category) then Err(DecisionIdentityMismatch)
        else
          var id := SnapshotId(m, |r.snapshots| + 1);
          var snapshot := FinalSnapshot(
            id, machine.replaySha, r.revision, machine.ruleVersion, stream, d, cmd.checklist, cmd.author, cmd.reason,
            now);
          var r1 := r.(snapshots := r.snapshots +
                [snapshot], current := id, status := Reviewed, replaySha := machine.replaySha);
          Ok((Stamp(r1), AuditEntry(0, now, cmd.author, FinalSigned, m, id)))
  }

  function Mutate(r: Review, m: MatchId, cmd: Command, now: int): Mutation {
    match cmd
    case AddCorrection(c, truth) => AddCorrectionTo(r, m, c, truth, now)
    case EditPhases(_, _, _, _, _) => EditPhasesOf(r, m, cmd, now)
    case SetOverlay(effective, author) => SetOverlayOf(r, m, effective, author, now)
    case SetStatus(status, author, expected) => SetStatusOf(r, m, status, author, expected, now)
    case DecideCategory(_, _, _, _, _, _, _, _) => DecideCategoryOf(r, m, cmd, now)
    case FinalizeReview(_, _, _, _, _, _) => FinalizeReviewOf(r, m, cmd, now)
  }

  // ---- the committed contents of a store ----

  datatype Contents = Contents(reviews: map<MatchId, Review>, audit: Option<seq<AuditEntry>>)

  const EMPTY := Contents(map[], None)

  datatype Txn = Txn(matchId: MatchId, cmd: Command, now: int)

  const FALLBACK := "invalid"

  /** Identifiers that could leave the match directory share one fallback file. */
  predicate ValidMatchId(m: MatchId) {
    m != "" && forall i :: 0 <= i < |m| ==> m[i] != '/' && m[i] != '\\' && m[i] != '.' && m[i] >= ' '
  }

  function FileOf(m: MatchId): MatchId {
    if ValidMatchId(m) then m else FALLBACK
  }

  function ReadReview(c: Contents, m: MatchId): Review {
    if FileOf(m) in c.reviews then Normalize(c.reviews[FileOf(m)]) else Fresh(m)
  }

  function Entries(audit: Option<seq<AuditEntry>>): seq<AuditEntry> {
    match audit
    case None => []
    case Some(entries) => entries
  }

  function Commit(c: Contents, m: MatchId, r: Review, e: AuditEntry): Contents {
    var entries := Entries(c.audit);
    Contents(c.reviews[FileOf(m) := r], Some(entries + [e.(seqNo := |entries| + 1, matchId := m)]))
  }

  /** One transaction on committed contents: the new contents, or why it is refused. */
  function Perform(c: Contents, t: Txn): Result<Contents, ReviewError> {
    match Mutate(ReadReview(c, t.matchId), t.matchId, t.cmd, t.now)
    case Err(e) => Err(e)
    case Ok((r, e)) => Ok(Commit(c, t.matchId, r, e))
  }

  /** The contents after exactly these transactions, if each of them is accepted. */
  function Replay(txns: seq<Txn>): Option<Contents> {
    if txns == [] then Some(EMPTY)
    else
      match Replay(txns[..|txns| - 1])
      case None => None
      case Some(c) =>
        match Perform(c, txns[|txns| - 1])
        case Err(_) => None
        case Ok(c') => Some(c')
  }
}
