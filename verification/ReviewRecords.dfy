/** What every committed transaction says in its record, and exactly when it is accepted. */
module ReviewRecords {
  import opened Wrappers
  import opened Phases
  import opened EventRefs
  import opened EditorSpec
  import opened ReviewModel
  import opened ReviewDocuments
  import opened ReviewProperties
  import EditorProperties
  import EditorOutcomes

  /** Nothing but white space. */
  predicate Blank(s: string) {
    forall i :: 0 <= i < |s| ==> IsSpace(s[i])
  }

  lemma {:induction false} LeftBlank(s: string)
    ensures TrimLeft(s) == [] <==> Blank(s)
    ensures TrimLeft(s) != [] ==> !Blank(TrimLeft(s))
  {
    if s != [] && IsSpace(s[0]) {
      LeftBlank(s[1..]);
      assert forall i :: 0 <= i < |s[1..]| ==> s[1..][i] == s[i + 1];
    }
  }

  lemma {:induction false} RightBlank(s: string)
    ensures TrimRight(s) == [] <==> Blank(s)
  {
    if s != [] && IsSpace(s[|s| - 1]) { RightBlank(s[..|s| - 1]); }
  }

  lemma BlankIs(s: string)
    ensures TrimSpace(s) == "" <==> Blank(s)
  {
    LeftBlank(s);
    RightBlank(TrimLeft(s));
    hide IsSpace;
  }

  /** The stream a reviewer sees: the edited one, in order, or that of the machine. */
  function Shown(d: Review, machine: Machine): Stream {
    if d.effective == [] then machine.intervals else SortByStart(d.effective)
  }

  /** Streams are stored with the references of their own bounds. */
  lemma StoredRefs(s: Stream)
    ensures |WithRefs(s)| == |s|
    ensures forall i :: 0 <= i < |s| ==>
              WithRefs(s)[i] == EditorOutcomes.Span(s[i].start, s[i].end, s[i].phase, s[i].roundIndex)
  {
    hide Itoa;
  }

  // ---- when a command is accepted ----

  /** The guards, over the command and the document before it. */
  ghost predicate Acceptable(d: Review, cmd: Command) {
    match cmd
    case AddCorrection(c, truth) =>
      c.previousValue == "" || truth.value == "" || c.previousValue == truth.value
    case EditPhases(machine, _, _, request, expected) =>
      && expected == d.revision
      && EditorSpec.Apply(Shown(d, machine), request.(eligible := machine.eligible)).Ok?
    case SetOverlay(_, _) => true
    case SetStatus(status, _, expected) => expected == d.revision && (status == Reviewed ==> d.current != NoId)
    case DecideCategory(machine, verdict, category, claimedCategory, claimedSha, author, reason, expected) =>
      && expected == d.revision
      && !Blank(author) && !Blank(reason) && !Blank(machine.category) && machine.replaySha != ""
      && (claimedCategory == "" || claimedCategory == machine.category)
      && (claimedSha == "" || claimedSha == machine.replaySha)
      && (match verdict
          case Confirm => category == "" || category == machine.category
          case OtherVerdict(_) => false
          case _ => !Blank(category))
    case FinalizeReview(machine, claimedSha, checklist, author, reason, expected) =>
      && expected == d.revision
      && !Blank(author) && !Blank(reason) && machine.replaySha != ""
      && (claimedSha == "" || claimedSha == machine.replaySha)
      && checklist.streamReviewed && checklist.rolesReviewed && !Blank(checklist.roleEvidence)
      && checklist.experimentalAcknowledged
      && ValidStream(SortByStart(Shown(d, machine)), machine.eligible)
      && d.decisions != []
      && var decision := d.decisions[|d.decisions| - 1];
         decision.replaySha == machine.replaySha &&
         (machine.category == "" || decision.machineCategory == machine.category)
  }

  // ---- what its record says ----

  /** The status after a change that withdraws a sign-off and starts the work. */
  function Working(d: Review): Status {
    if d.current != NoId || d.status == Reviewed || d.status == NoStatus || d.status == Pending then InProgress
    else d.status
  }

  function KnownSha(d: Review, sha: string): string {
    if d.replaySha == "" then sha else d.replaySha
  }

  /** The document after an accepted command, but for its revision. */
  ghost predicate Records(d: Review, d': Review, m: MatchId, cmd: Command, now: int) {
    match cmd
    case AddCorrection(c, truth) =>
      && d' == d.(corrections := d'.corrections, status := Working(d), current := NoId,
                  replaySha := KnownSha(d, truth.replaySha), revision := d'.revision)
      && d'.corrections == d.corrections + [Correction(
           CorrectionId(m, |d.corrections| + 1), c.kind, c.author, c.reason,
           if c.appliedAt == 0 then now else c.appliedAt,
           if truth.algorithmVersion == "" then "phase-rule" else truth.algorithmVersion, truth.replaySha, truth.value,
           c.effectiveValue, c.eventRef)]
    case EditPhases(machine, author, reason, request, _) =>
      var base := Shown(d, machine);
      var edited := EditorSpec.Apply(base, request.(eligible := machine.eligible));
      && edited.Ok?
      && d' == d.(phaseCorrections := d'.phaseCorrections, effective := WithRefs(edited.value), status := Working(d),
                  current := NoId, replaySha := KnownSha(d, machine.replaySha), revision := d'.revision)
      && d'.phaseCorrections == d.phaseCorrections + [PhaseCorrection(
           CorrectionId(m, |d.phaseCorrections| + 1), request.(eligible := machine.eligible), author, reason, now,
           machine.ruleVersion, machine.replaySha, base, WithRefs(edited.value), WithRefs(machine.intervals))]
    case SetOverlay(effective, _) =>
      d' == d.(effective := effective, current := NoId, revision := d'.revision,
               status := if d.current != NoId || d.status == Reviewed then InProgress else d.status)
    case SetStatus(status, _, _) =>
      d' == d.(status := status, current := if status == Reviewed then d.current else NoId, revision := d'.revision)
    case DecideCategory(machine, verdict, category, _, _, author, reason, _) =>
      && d' == d.(decisions := d'.decisions, status := Working(d), current := NoId, replaySha := machine.replaySha,
                  revision := d'.revision)
      && d'.decisions == d.decisions + [CategoryDecision(
           DecisionId(m, |d.decisions| + 1), machine.category,
           if verdict == Confirm then machine.category else category,
           verdict, machine.replaySha, author, reason, now, d.revision)]
    case FinalizeReview(machine, _, checklist, author, reason, _) =>
      && d.decisions != []
      && d' == d.(snapshots := d'.snapshots, status := Reviewed, current := SnapshotId(m, |d.snapshots| + 1),
                  replaySha := machine.replaySha, revision := d'.revision)
      && d'.snapshots == d.snapshots + [FinalSnapshot(
           SnapshotId(m, |d.snapshots| + 1), machine.replaySha, d.revision, machine.ruleVersion,
           SortByStart(Shown(d, machine)),
           d.decisions[|d.decisions| - 1], checklist, author, reason, now)]
  }

  /** What the audit entry of the command says. */
  ghost predicate Audits(d: Review, e: AuditEntry, m: MatchId, cmd: Command, now: int) {
    && e.appliedAt == now && e.matchId == m
    && match cmd
       case AddCorrection(c, _) =>
         e.action == CorrectionAdded && e.author == c.author && e.subject == CorrectionId(m, |d.corrections| + 1)
       case EditPhases(_, author, _, _, _) =>
         e.action == PhaseCorrected && e.author == author && e.subject == CorrectionId(m, |d.phaseCorrections| + 1)
       case SetOverlay(_, author) => e.action == OverlayApplied && e.author == author && e.subject == NoId
       case SetStatus(_, author, _) => e.action == StatusSet && e.author == author && e.subject == NoId
       case DecideCategory(_, _, _, _, _, author, _, _) =>
         e.action == CategoryDecided && e.author == author && e.subject == DecisionId(m, |d.decisions| + 1)
       case FinalizeReview(_, _, _, author, _, _) =>
         e.action == FinalSigned && e.author == author && e.subject == SnapshotId(m, |d.snapshots| + 1)
  }

  predicate QuotesRevision(cmd: Command) {
    cmd.EditPhases? || cmd.SetStatus? || cmd.DecideCategory? || cmd.FinalizeReview?
  }

  ghost predicate Exactly(d: Review, m: MatchId, cmd: Command, now: int) {
    var r := Mutate(d, m, cmd, now);
    && (r.Ok? <==> Acceptable(d, cmd))
    && (r.Ok? ==>
          && Records(d, r.value.0, m, cmd, now) && r.value.0.revision == Digest(PayloadOf(r.value.0))
          && Audits(d, r.value.1, m, cmd, now))
  }

  /** A command is refused as stale just when it quotes another revision. */
  lemma StaleWhen(d: Review, m: MatchId, cmd: Command, now: int)
    requires DocInvariant(d)
    ensures Mutate(d, m, cmd, now) == Err(StaleRevision) <==> QuotesRevision(cmd) && cmd.expected != d.revision
  {
    MutateIs(d, m, cmd, now);
    assert d.revision == Digest(PayloadOf(d));
    hide Mutate, DocInvariant, PayloadOf, TrimSpace, EditorSpec.Apply, StreamFault, SortByStart, CurrentStream;
    hide WithRefs, HasUsableDecision, FindSnapshot, ChecklistComplete, InvalidateFinal, Started;
    match cmd {
      case AddCorrection(_, _) =>
      case EditPhases(_, _, _, _, _) =>
      case SetOverlay(_, _) =>
      case SetStatus(_, _, _) =>
      case DecideCategory(_, _, _, _, _, _, _, _) =>
      case FinalizeReview(_, _, _, _, _, _) =>
    }
  }

  // ---- each command ----

  lemma CorrectionExactly(d: Review, m: MatchId, cmd: Command, now: int)
    requires DocInvariant(d) && cmd.AddCorrection?
    ensures Exactly(d, m, cmd, now)
  {
    MutateIs(d, m, cmd, now);
    hide Mutate, DocInvariant;
  }

  lemma OverlayExactly(d: Review, m: MatchId, cmd: Command, now: int)
    requires DocInvariant(d) && cmd.SetOverlay?
    ensures Exactly(d, m, cmd, now)
  {
    MutateIs(d, m, cmd, now);
    hide Mutate, DocInvariant;
  }

  lemma StatusExactly(d: Review, m: MatchId, cmd: Command, now: int)
    requires DocInvariant(d) && cmd.SetStatus?
    ensures Exactly(d, m, cmd, now)
  {
    MutateIs(d, m, cmd, now);
    if d.current != NoId {
      SignedIsUsable(d);
      FindsLast(d.snapshots, 0);
    }
    assert d.revision == Digest(PayloadOf(d));
    hide Mutate, FindSnapshot, HasUsableDecision, SnapshotsNumbered, TokensUsable, PayloadOf;
  }

  lemma DecisionExactly(d: Review, m: MatchId, cmd: Command, now: int)
    requires DocInvariant(d) && cmd.DecideCategory?
    ensures Exactly(d, m, cmd, now)
  {
    hide DocInvariant, Mutate, TrimSpace, Blank;
    MutateIs(d, m, cmd, now);
    BlankIs(cmd.author);
    BlankIs(cmd.reason);
    BlankIs(cmd.machine.category);
    BlankIs(cmd.category);
    EditFacts(d, cmd.machine);
    hide Shown, CurrentStream;
  }

  lemma EditExactly(d: Review, m: MatchId, cmd: Command, now: int)
    requires DocInvariant(d) && cmd.EditPhases?
    ensures Exactly(d, m, cmd, now)
  {
    hide DocInvariant, Mutate, SortByStart, EditorSpec.Apply, WithRefs, Shown, CurrentStream;
    MutateIs(d, m, cmd, now);
    EditFacts(d, cmd.machine);
  }

  lemma EditFacts(d: Review, machine: Machine)
    requires DocInvariant(d)
    ensures d.revision == Digest(PayloadOf(d)) && CurrentStream(d, machine) == Shown(d, machine)
  {}

  lemma FinalExactly(d: Review, m: MatchId, cmd: Command, now: int)
    requires DocInvariant(d) && cmd.FinalizeReview?
    ensures Exactly(d, m, cmd, now)
  {
    hide DocInvariant, Mutate, TrimSpace, Blank, SortByStart, Shown, CurrentStream, StreamFault, ValidStream;
    MutateIs(d, m, cmd, now);
    BlankIs(cmd.author);
    BlankIs(cmd.reason);
    BlankIs(cmd.checklist.roleEvidence);
    FinalFacts(d, cmd.machine);
  }

  lemma FinalFacts(d: Review, machine: Machine)
    requires DocInvariant(d)
    ensures d.revision == Digest(PayloadOf(d)) && CurrentStream(d, machine) == Shown(d, machine)
    ensures d.decisions != [] ==> Usable(d.decisions[|d.decisions| - 1].basedOn)
    ensures var stream := SortByStart(Shown(d, machine));
      && (StreamFault(stream, machine.eligible) == None <==> ValidStream(stream, machine.eligible))
      && (ValidStream(stream, machine.eligible) ==> Shown(d, machine) != [])
  {
    var stream := SortByStart(Shown(d, machine));
    EditorProperties.FaultMeansInvalid(stream, machine.eligible);
    if ValidStream(stream, machine.eligible) { NonemptyWhenValid(Shown(d, machine), machine.eligible); }
    hide StreamFault, ValidStream, SortByStart, PayloadOf;
  }

  lemma NonemptyWhenValid(s: Stream, eligible: int)
    requires ValidStream(SortByStart(s), eligible)
    ensures s != []
  {}

  // ---- every replay ----

  lemma MutateExactly(d: Review, m: MatchId, cmd: Command, now: int)
    requires DocInvariant(d)
    ensures Exactly(d, m, cmd, now)
  {
    hide *;
    match cmd {
      case AddCorrection(_, _) => CorrectionExactly(d, m, cmd, now);
      case EditPhases(_, _, _, _, _) => EditExactly(d, m, cmd, now);
      case SetOverlay(_, _) => OverlayExactly(d, m, cmd, now);
      case SetStatus(_, _, _) => StatusExactly(d, m, cmd, now);
      case DecideCategory(_, _, _, _, _, _, _, _) => DecisionExactly(d, m, cmd, now);
      case FinalizeReview(_, _, _, _, _, _) => FinalExactly(d, m, cmd, now);
    }
  }

  /** After every replay a transaction is accepted just when its guards hold on the document
      before it. The document of its match is then the one the command describes, under a
      new digest, no other file changes, and the audit gains the entry that describes it. */
  lemma CommitsExactly(txns: seq<Txn>, t: Txn)
    requires Replay(txns).Some?
    ensures var c := Replay(txns).value; var d := ReadReview(c, t.matchId);
      && (Perform(c, t).Ok? <==> Acceptable(d, t.cmd))
      && (Perform(c, t) == Err(StaleRevision) <==> QuotesRevision(t.cmd) && t.cmd.expected != d.revision)
      && (Perform(c, t).Ok? ==>
            var c' := Perform(c, t).value; var d' := ReadReview(c', t.matchId);
            && Records(d, d', t.matchId, t.cmd, t.now) && d'.revision == Digest(PayloadOf(d'))
            && (forall m :: FileOf(m) != FileOf(t.matchId) ==> ReadReview(c', m) == ReadReview(c, m))
            && var entries, entries' := Entries(c.audit), Entries(c'.audit);
               && |entries'| == |entries| + 1 && entries'[..|entries|] == entries
               && entries'[|entries|].seqNo == |entries| + 1
               && Audits(d, entries'[|entries|], t.matchId, t.cmd, t.now))
  {
    ReplaySound(txns);
    var c := Replay(txns).value;
    var d := ReadReview(c, t.matchId);
    ReadIsSound(c, t.matchId);
    MutateExactly(d, t.matchId, t.cmd, t.now);
    StaleWhen(d, t.matchId, t.cmd, t.now);
    hide Replay, DocsSound, DocInvariant, Acceptable, Records, Audits, ReadReview, PayloadOf;
    PerformIs(c, t);
    if Perform(c, t).Ok? {
      PerformDoc(c, t, t.matchId);
      forall m | FileOf(m) != FileOf(t.matchId) ensures ReadReview(Perform(c, t).value, m) == ReadReview(c, m) {
        PerformDoc(c, t, m);
        hide FileOf, Perform;
      }
      StampedAudit(d, Mutate(d, t.matchId, t.cmd, t.now).value.1, |Entries(c.audit)| + 1, t.matchId, t.cmd, t.now);
      hide Perform, FileOf, Mutate;
    }
  }

  /** What performing does with the mutation. */
  lemma PerformIs(c: Contents, t: Txn)
    ensures var r := Mutate(ReadReview(c, t.matchId), t.matchId, t.cmd, t.now);
      && (Perform(c, t).Ok? <==> r.Ok?)
      && (r.Err? ==> Perform(c, t) == Err(r.error))
      && (r.Ok? ==>
            var entries, entries' := Entries(c.audit), Entries(Perform(c, t).value.audit);
            && entries' == entries + [r.value.1.(seqNo := |entries| + 1, matchId := t.matchId)])
  {
    hide Mutate, ReadReview, FileOf;
  }

  lemma StampedAudit(d: Review, e: AuditEntry, n: nat, m: MatchId, cmd: Command, now: int)
    requires Audits(d, e, m, cmd, now)
    ensures Audits(d, e.(seqNo := n, matchId := m), m, cmd, now)
  {}

  /** An id that is empty or holds a separator, a dot or a control character has the file of
      the fallback id; any other has its own. */
  lemma FileIs(m: MatchId)
    ensures var unsafe := m == "" || '/' in m || '\\' in m || '.' in m || exists c :: c in m && c < ' ';
      FileOf(m) == if unsafe then "invalid" else m
  {
    assert forall i :: 0 <= i < |m| ==> m[i] in m;
    if c :| c in m && (c == '/' || c == '\\' || c == '.' || c < ' ') {
      var i :| 0 <= i < |m| && m[i] == c;
      assert !ValidMatchId(m);
    }
  }

  /** A document never written reads as pending, without histories, under the digest of
      that. */
  lemma UnwrittenReads(c: Contents, m: MatchId)
    requires FileOf(m) !in c.reviews
    ensures var d := ReadReview(c, m);
      && d == Review(m, "", [], [], [], Digest(PayloadOf(d)), Pending, [], [], NoId)
  {
    hide FileOf;
  }
}
