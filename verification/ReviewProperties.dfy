/** What holds in every committed contents, that is, after every replay of accepted
    transactions, whatever match ids and machine outputs they quote: audit agreement,
    sign-off soundness, growing histories, the chain of phase corrections, no lost update. */
module ReviewProperties {
  import opened Wrappers
  import opened Phases
  import opened EventRefs
  import opened EditorSpec
  import opened ReviewModel
  import opened ReviewDocuments
  import EditorProperties

  // ---- one transaction ----

  predicate SameFile(a: MatchId, b: MatchId) {
    FileOf(a) == FileOf(b)
  }

  ghost predicate DocsSound(c: Contents) {
    forall f :: f in c.reviews ==> DocInvariant(c.reviews[f])
  }

  lemma ReadIsSound(c: Contents, m: MatchId)
    requires DocsSound(c)
    ensures DocInvariant(ReadReview(c, m))
    ensures FileOf(m) in c.reviews ==> ReadReview(c, m) == c.reviews[FileOf(m)]
  {
    hide DocInvariant, ValidMatchId;
    if FileOf(m) in c.reviews {
      NormalizeKeeps(c.reviews[FileOf(m)]);
    } else {
      FreshIsSound(m);
    }
  }

  /** Two ids of one file read the same document, but for the name of one not yet written. */
  lemma SameFileReadsAlike(c: Contents, a: MatchId, b: MatchId)
    requires SameFile(a, b)
    ensures ReadReview(c, b) == ReadReview(c, a).(matchId := ReadReview(c, b).matchId)
  {
    hide ValidMatchId, Normalize;
  }

  /** What a transaction does to the document one match reads. */
  lemma PerformDoc(c: Contents, t: Txn, m: MatchId)
    requires DocsSound(c) && Perform(c, t).Ok?
    ensures var c' := Perform(c, t).value; var d := ReadReview(c, t.matchId);
      && DocsSound(c') && DocInvariant(d)
      && Mutate(d, t.matchId, t.cmd, t.now).Ok?
      && (!SameFile(t.matchId, m) ==> ReadReview(c', m) == ReadReview(c, m))
      && (SameFile(t.matchId, m) ==>
            && ReadReview(c', m) == Mutate(d, t.matchId, t.cmd, t.now).value.0
            && Grows(ReadReview(c, m), ReadReview(c', m)))
  {
    hide DocInvariant, Mutate, ValidMatchId, Normalize;
    ReadIsSound(c, t.matchId);
    var d := ReadReview(c, t.matchId);
    MutateIsSound(d, t.matchId, t.cmd, t.now);
    MutateGrows(d, t.matchId, t.cmd, t.now);
    ReadIsSound(Perform(c, t).value, m);
    if SameFile(t.matchId, m) { SameFileReadsAlike(c, t.matchId, m); }
  }

  // ---- every replay ----

  lemma {:induction false} ReplayPrefix(txns: seq<Txn>, k: nat)
    requires Replay(txns).Some? && k <= |txns|
    ensures Replay(txns[..k]).Some?
  {
    if k < |txns| {
      var n := |txns| - 1;
      ReplayPrefix(txns[..n], k);
      assert txns[..n][..k] == txns[..k];
    } else {
      assert txns[..k] == txns;
    }
  }

  lemma OneStep(txns: seq<Txn>)
    requires txns != [] && Replay(txns).Some?
    ensures var n := |txns| - 1;
      Replay(txns[..n]).Some? && Perform(Replay(txns[..n]).value, txns[n]) == Ok(Replay(txns).value)
  {
    hide Perform;
  }

  lemma {:induction false} ReplaySound(txns: seq<Txn>)
    requires Replay(txns).Some?
    ensures DocsSound(Replay(txns).value)
  {
    if txns != [] {
      var n := |txns| - 1;
      ReplaySound(txns[..n]);
      OneStep(txns);
      hide DocsSound, Perform, Replay;
      PerformDoc(Replay(txns[..n]).value, txns[n], "");
    }
  }

  // ---- the audit ----

  /** The subjects that the audit records for one match and one action, in order. */
  function Audited(entries: seq<AuditEntry>, m: MatchId, action: Action): seq<EntityId> {
    if entries == [] then []
    else
      var n := |entries| - 1;
      var e := entries[n];
      Audited(entries[..n], m, action) + (if e.matchId == m && e.action == action then [e.subject] else [])
  }

  ghost predicate AuditAgrees(c: Contents, m: MatchId) {
    forall action :: LeavesHistory(action) ==> Audited(Entries(c.audit), m, action) == History(ReadReview(c, m), action)
  }

  ghost predicate SequenceIsExact(entries: seq<AuditEntry>) {
    forall i :: 0 <= i < |entries| ==> entries[i].seqNo == i + 1
  }

  lemma PerformNumbers(c: Contents, t: Txn)
    requires Perform(c, t).Ok? && SequenceIsExact(Entries(c.audit))
    ensures SequenceIsExact(Entries(Perform(c, t).value.audit))
  {
    hide Mutate;
  }

  /** The audit is numbered 1..n across all matches, whatever their ids. */
  lemma {:induction false} AuditIsNumbered(txns: seq<Txn>)
    requires Replay(txns).Some?
    ensures SequenceIsExact(Entries(Replay(txns).value.audit))
  {
    if txns != [] {
      var n := |txns| - 1;
      AuditIsNumbered(txns[..n]);
      hide Perform;
      PerformNumbers(Replay(txns[..n]).value, txns[n]);
    }
  }

  lemma PerformAddsEntry(c: Contents, t: Txn)
    requires Perform(c, t).Ok?
    ensures var entries, entries' := Entries(c.audit), Entries(Perform(c, t).value.audit);
      && |entries'| == |entries| + 1 && entries'[..|entries|] == entries
      && entries'[|entries|].matchId == t.matchId && entries'[|entries|].action == ActionOf(t.cmd)
  {
    MutationEntersHistory(ReadReview(c, t.matchId), t.matchId, t.cmd, t.now, CorrectionAdded);
    hide Mutate;
    hide History;
    hide ReadReview;
  }

  /** The log is the list of committed transactions: one entry each, in commit order. */
  lemma {:induction false} AuditIsTheLog(txns: seq<Txn>)
    requires Replay(txns).Some?
    ensures var entries := Entries(Replay(txns).value.audit);
      && |entries| == |txns|
      && forall i :: 0 <= i < |txns| ==>
           entries[i].matchId == txns[i].matchId && entries[i].action == ActionOf(txns[i].cmd)
  {
    hide Perform;
    hide ActionOf;
    if txns != [] {
      var n := |txns| - 1;
      AuditIsTheLog(txns[..n]);
      PerformAddsEntry(Replay(txns[..n]).value, txns[n]);
      var entries, entries' := Entries(Replay(txns[..n]).value.audit), Entries(Replay(txns).value.audit);
      assert forall i :: 0 <= i < n ==> entries'[i] == entries'[..n][i];
    }
  }

  /** The transaction enters a history of the file that `m` reads, under another id. */
  predicate Misfiled(t: Txn, m: MatchId) {
    SameFile(t.matchId, m) && t.matchId != m && LeavesHistory(ActionOf(t.cmd))
  }

  function MisfiledCount(txns: seq<Txn>, m: MatchId, action: Action): nat {
    if txns == [] then 0
    else
      var t := txns[|txns| - 1];
      MisfiledCount(txns[..|txns| - 1], m, action) + (if Misfiled(t, m) && ActionOf(t.cmd) == action then 1 else 0)
  }

  /** What one transaction adds to the audit of a match and to the document it reads. */
  lemma PerformEnters(c: Contents, t: Txn, m: MatchId, action: Action)
    requires DocsSound(c) && Perform(c, t).Ok? && LeavesHistory(action)
    ensures var c' := Perform(c, t).value; var d := ReadReview(c, t.matchId);
      && Mutate(d, t.matchId, t.cmd, t.now).Ok?
      && var x := if ActionOf(t.cmd) == action then [Mutate(d, t.matchId, t.cmd, t.now).value.1.subject] else [];
         && Audited(Entries(c'.audit), m, action) ==
              Audited(Entries(c.audit), m, action) + (if t.matchId == m then x else [])
         && History(ReadReview(c', m), action) ==
              History(ReadReview(c, m), action) + (if SameFile(t.matchId, m) then x else [])
  {
    PerformDoc(c, t, m);
    var d := ReadReview(c, t.matchId);
    MutationEntersHistory(d, t.matchId, t.cmd, t.now, action);
    if SameFile(t.matchId, m) { SameFileReadsAlike(c, t.matchId, m); HistoryIgnoresName(d, ReadReview(c, m), action); }
    hide DocsSound, DocInvariant, ReadReview, Mutate, History, Grows, FileOf;
    var entries, entries' := Entries(c.audit), Entries(Perform(c, t).value.audit);
    assert entries'[..|entries|] == entries;
  }

  lemma HistoryIgnoresName(d: Review, d': Review, action: Action)
    requires d' == d.(matchId := d'.matchId)
    ensures History(d', action) == History(d, action)
  {}

  /** The document holds what the audit of the match names, and what entered under other ids. */
  lemma {:induction false} HistoryLengths(txns: seq<Txn>, m: MatchId, action: Action)
    requires Replay(txns).Some? && LeavesHistory(action)
    ensures var c := Replay(txns).value;
      |History(ReadReview(c, m), action)| == |Audited(Entries(c.audit), m, action)| + MisfiledCount(txns, m, action)
  {
    if txns != [] {
      var n := |txns| - 1;
      HistoryLengths(txns[..n], m, action);
      ReplaySound(txns[..n]);
      OneStep(txns);
      hide DocsSound, Perform, Replay, History, Audited, ReadReview, Mutate, FileOf;
      PerformEnters(Replay(txns[..n]).value, txns[n], m, action);
    }
  }

  lemma {:induction false} NoneMisfiled(txns: seq<Txn>, m: MatchId, action: Action)
    requires LeavesHistory(action)
    ensures MisfiledCount(txns, m, action) == 0 <==>
      forall i :: 0 <= i < |txns| ==> !(Misfiled(txns[i], m) && ActionOf(txns[i].cmd) == action)
  {
    if txns != [] {
      var n := |txns| - 1;
      NoneMisfiled(txns[..n], m, action);
      hide Misfiled;
      assert forall i :: 0 <= i < n ==> txns[..n][i] == txns[i];
    }
  }

  lemma {:induction false} AgreesUnlessMisfiled(txns: seq<Txn>, m: MatchId, action: Action)
    requires Replay(txns).Some? && LeavesHistory(action) && MisfiledCount(txns, m, action) == 0
    ensures var c := Replay(txns).value; Audited(Entries(c.audit), m, action) == History(ReadReview(c, m), action)
  {
    if txns != [] {
      var n := |txns| - 1;
      AgreesUnlessMisfiled(txns[..n], m, action);
      ReplaySound(txns[..n]);
      OneStep(txns);
      hide DocsSound, Perform, Replay, History, Audited, ReadReview, Mutate, FileOf;
      PerformEnters(Replay(txns[..n]).value, txns[n], m, action);
    }
  }

  /** Agreement of audit and documents, exactly: for every id, the audit entries of each
      action name exactly that history of its document, in order, just when no history of
      the file was entered under another id. */
  lemma AuditAgreement(txns: seq<Txn>, m: MatchId)
    requires Replay(txns).Some?
    ensures AuditAgrees(Replay(txns).value, m) <==> forall i :: 0 <= i < |txns| ==> !Misfiled(txns[i], m)
  {
    hide Replay, Misfiled, Audited, History, ReadReview;
    var c := Replay(txns).value;
    forall action | LeavesHistory(action)
      ensures Audited(Entries(c.audit), m, action) == History(ReadReview(c, m), action) <==>
        forall i :: 0 <= i < |txns| ==> !(Misfiled(txns[i], m) && ActionOf(txns[i].cmd) == action)
    {
      HistoryLengths(txns, m, action);
      NoneMisfiled(txns, m, action);
      if MisfiledCount(txns, m, action) == 0 { AgreesUnlessMisfiled(txns, m, action); }
    }
    forall i | 0 <= i < |txns| && Misfiled(txns[i], m) ensures LeavesHistory(ActionOf(txns[i].cmd)) {
      MisfiledLeavesHistory(txns[i], m);
    }
  }

  lemma MisfiledLeavesHistory(t: Txn, m: MatchId)
    requires Misfiled(t, m)
    ensures LeavesHistory(ActionOf(t.cmd))
  {
    hide FileOf;
  }

  /** A valid id other than that of the fallback file has its file to itself. */
  lemma OwnFile(a: MatchId, m: MatchId)
    requires ValidMatchId(m) && m != FALLBACK
    ensures SameFile(a, m) <==> a == m
  {
    hide ValidMatchId;
    FallbackIsValid();
  }

  lemma FallbackIsValid()
    ensures ValidMatchId(FALLBACK)
  {
  }

  /** So its audit always agrees. */
  lemma OwnAuditAgrees(txns: seq<Txn>, m: MatchId)
    requires Replay(txns).Some? && ValidMatchId(m) && m != FALLBACK
    ensures AuditAgrees(Replay(txns).value, m)
  {
    AuditAgreement(txns, m);
    hide Replay, AuditAgrees, ValidMatchId, FileOf;
    forall i | 0 <= i < |txns| ensures !Misfiled(txns[i], m) {
      OwnFile(txns[i].matchId, m);
    }
  }

  /** And it can fail for the other one: a correction filed under an id that leaves the
      directory shows in the document named like the fallback file, not in its audit. */
  lemma FallbackDisagrees(correction: Correction, truth: Truth, now: int)
    requires correction.previousValue == truth.value
    ensures var txns := [Txn("a.b", AddCorrection(correction, truth), now)];
      Replay(txns).Some? && !AuditAgrees(Replay(txns).value, FALLBACK)
  {
    var t := Txn("a.b", AddCorrection(correction, truth), now);
    assert [t][..0] == [];
    assert !ValidMatchId("a.b") by { assert "a.b"[1] == '.'; }
    FallbackIsValid();
    assert Replay([t]).Some? by { hide ValidMatchId; }
    AuditAgreement([t], FALLBACK);
    hide Replay, AuditAgrees, ValidMatchId;
    assert Misfiled([t][0], FALLBACK);
  }

  // ---- sign-off ----

  /** The machine output that the last sign-off of the file quoted. */
  function LastSigning(txns: seq<Txn>, m: MatchId): Option<Machine> {
    if txns == [] then None
    else
      var t := txns[|txns| - 1];
      if SameFile(t.matchId, m) && t.cmd.FinalizeReview? then Some(t.cmd.machine)
      else LastSigning(txns[..|txns| - 1], m)
  }

  /** Sign-off: every reachable document is `Reviewed` just when it names a snapshot. It
      then names exactly one; its stream tiles the eligible time and is the current one,
      both as the last sign-off saw them, and its category decision is the latest. */
  lemma SignOff(txns: seq<Txn>, m: MatchId)
    requires Replay(txns).Some?
    ensures var d := ReadReview(Replay(txns).value, m);
      && (d.status == Reviewed <==> d.current != NoId)
      && (d.current != NoId ==>
            && LastSigning(txns, m).Some? && SignedBy(d, LastSigning(txns, m).value)
            && forall j :: 0 <= j < |d.snapshots| && d.snapshots[j].id == d.current ==> j == |d.snapshots| - 1)
  {
    ReplaySound(txns);
    StaysSigned(txns, m);
    hide Replay, SignedBy, LastSigning, ReadReview;
    ReadIsSound(Replay(txns).value, m);
  }

  lemma {:induction false} StaysSigned(txns: seq<Txn>, m: MatchId)
    requires Replay(txns).Some?
    ensures var d := ReadReview(Replay(txns).value, m);
      d.current != NoId ==> LastSigning(txns, m).Some? && SignedBy(d, LastSigning(txns, m).value)
  {
    if txns == [] {
      hide FileOf;
    } else {
      var n := |txns| - 1;
      var t := txns[n];
      StaysSigned(txns[..n], m);
      ReplaySound(txns[..n]);
      OneStep(txns);
      hide DocsSound, DocInvariant, Perform, Replay, ReadReview, Mutate, FileOf, SignedBy;
      var c := Replay(txns[..n]).value;
      PerformDoc(c, t, m);
      if SameFile(t.matchId, m) {
        SameFileReadsAlike(c, t.matchId, m);
        var d, before := ReadReview(c, t.matchId), LastSigning(txns[..n], m);
        var machine := if before.Some? then before.value else Machine(0, [], "", "", "");
        MutateSigns(d, t.matchId, t.cmd, t.now, machine);
        SignedIgnoresName(d, ReadReview(c, m), machine);
      }
    }
  }

  lemma SignedIgnoresName(d: Review, d': Review, machine: Machine)
    requires d' == d.(matchId := d'.matchId)
    ensures SignedBy(d', machine) == SignedBy(d, machine) && d'.current == d.current
  {
    hide SortByStart, ValidStream;
  }

  // ---- growth ----

  lemma GrowsTransitive(a: Review, b: Review, c: Review)
    requires Grows(a, b) && Grows(b, c)
    ensures Grows(a, c)
  {
  }

  /** Histories only grow: what a reader saw once is still there, in place, later. */
  lemma {:induction false} HistoriesGrow(txns: seq<Txn>, k: nat, m: MatchId)
    requires Replay(txns).Some? && k <= |txns|
    ensures Replay(txns[..k]).Some? && Grows(ReadReview(Replay(txns[..k]).value, m), ReadReview(Replay(txns).value, m))
  {
    var n := |txns| - 1;
    if k == |txns| {
      assert txns[..k] == txns;
    } else {
      HistoriesGrow(txns[..n], k, m);
      assert txns[..n][..k] == txns[..k];
      ReplaySound(txns[..n]);
      OneStep(txns);
      hide ReadReview, Grows, Perform, DocsSound, Replay, FileOf;
      var c := Replay(txns[..n]).value;
      PerformDoc(c, txns[n], m);
      if SameFile(txns[n].matchId, m) {
        GrowsTransitive(ReadReview(Replay(txns[..k]).value, m), ReadReview(c, m), ReadReview(Replay(txns).value, m));
      }
    }
  }

  // ---- the chain of phase corrections ----

  /** The machine outputs that the phase edits of the file quoted, in order. */
  function EditMachines(txns: seq<Txn>, m: MatchId): seq<Machine> {
    if txns == [] then []
    else
      var t := txns[|txns| - 1];
      EditMachines(txns[..|txns| - 1], m) +
      (if SameFile(t.matchId, m) && t.cmd.EditPhases? then [t.cmd.machine] else [])
  }

  /** Without direct overlay writes, phase corrections form a chain from the machine stream
      of the first edit to the effective stream, each link redoable from its own record,
      though the machine may have computed anew between edits. */
  lemma {:induction false} CorrectionChain(txns: seq<Txn>, m: MatchId)
    requires Replay(txns).Some?
    requires forall i :: 0 <= i < |txns| && SameFile(txns[i].matchId, m) ==> !txns[i].cmd.SetOverlay?
    ensures Chained(ReadReview(Replay(txns).value, m), EditMachines(txns, m))
  {
    if txns == [] {
      hide FileOf;
    } else {
      var n := |txns| - 1;
      assert forall i :: 0 <= i < n ==> txns[..n][i] == txns[i];
      CorrectionChain(txns[..n], m);
      ReplaySound(txns[..n]);
      OneStep(txns);
      assert !SameFile(txns[n].matchId, m) || !txns[n].cmd.SetOverlay?;
      hide DocsSound, Perform, Replay, ReadReview, Chained, SameFile;
      PerformChains(Replay(txns[..n]).value, txns[n], m, EditMachines(txns[..n], m));
    }
  }

  lemma PerformChains(c: Contents, t: Txn, m: MatchId, machines: seq<Machine>)
    requires DocsSound(c) && Perform(c, t).Ok? && Chained(ReadReview(c, m), machines)
    requires SameFile(t.matchId, m) ==> !t.cmd.SetOverlay?
    ensures Chained(ReadReview(Perform(c, t).value, m),
                    machines + (if SameFile(t.matchId, m) && t.cmd.EditPhases? then [t.cmd.machine] else []))
  {
    hide DocsSound, DocInvariant, Perform, ReadReview, Mutate, FileOf, Chained, Grows;
    PerformDoc(c, t, m);
    assert machines + [] == machines;
    if SameFile(t.matchId, m) {
      SameFileReadsAlike(c, t.matchId, m);
      ChainIgnoresName(ReadReview(c, m), ReadReview(c, t.matchId), machines);
      MutateChains(ReadReview(c, t.matchId), t.matchId, t.cmd, t.now, machines);
    }
  }

  lemma ChainIgnoresName(d: Review, d': Review, machines: seq<Machine>)
    requires d == d'.(matchId := d.matchId) && Chained(d, machines)
    ensures Chained(d', machines)
  {
    hide RecordsItsEdit;
  }

  // ---- no lost update ----

  lemma ReplayNext(txns: seq<Txn>, i: nat)
    requires Replay(txns).Some? && i < |txns|
    ensures Replay(txns[..i]).Some? && Replay(txns[..i + 1]).Some?
    ensures Perform(Replay(txns[..i]).value, txns[i]) == Ok(Replay(txns[..i + 1]).value)
  {
    hide Perform;
    ReplayPrefix(txns, i);
    ReplayPrefix(txns, i + 1);
    assert txns[..i + 1][..i] == txns[..i];
  }

  /** A guarded transaction quotes the digest of the very document it changes. */
  lemma QuotesWhatItChanges(txns: seq<Txn>, i: nat)
    requires Replay(txns).Some? && i < |txns| && Guarded(txns[i].cmd)
    ensures Replay(txns[..i]).Some? && Replay(txns[..i + 1]).Some?
    ensures var m := txns[i].matchId;
      var before, after := ReadReview(Replay(txns[..i]).value, m), ReadReview(Replay(txns[..i + 1]).value, m);
      && txns[i].cmd.expected == Digest(PayloadOf(before))
      && Weight(PayloadOf(after)) == Weight(PayloadOf(before)) + 1
  {
    var m := txns[i].matchId;
    ReplayNext(txns, i);
    ReplaySound(txns[..i]);
    hide Replay, Perform, DocsSound, ReadReview, Mutate, FileOf, Weight, Guarded;
    var c := Replay(txns[..i]).value;
    PerformDoc(c, txns[i], m);
    GuardedAdvances(ReadReview(c, m), m, txns[i].cmd, txns[i].now);
    TokenIsCurrent(ReadReview(c, m));
  }

  lemma TokenIsCurrent(d: Review)
    requires DocInvariant(d)
    ensures d.revision == Digest(PayloadOf(d))
  {
  }

  /** No lost update: of all phase edits, category decisions and sign-offs that write to one
      file and quote one revision, at most one is ever committed. */
  lemma NoLostUpdate(txns: seq<Txn>, i: nat, j: nat)
    requires Replay(txns).Some? && i < j < |txns| && SameFile(txns[i].matchId, txns[j].matchId)
    requires Guarded(txns[i].cmd) && Guarded(txns[j].cmd)
    ensures txns[i].cmd.expected != txns[j].cmd.expected
  {
    hide *;
    var a, b := txns[i].matchId, txns[j].matchId;
    QuotesWhatItChanges(txns, i);
    QuotesWhatItChanges(txns, j);
    HistoriesGrow(txns[..j], i + 1, a);
    assert txns[..j][..i + 1] == txns[..i + 1];
    HeavierWhenGrown(ReadReview(Replay(txns[..i + 1]).value, a), ReadReview(Replay(txns[..j]).value, a));
    SameFileSamePayload(Replay(txns[..j]).value, a, b);
  }

  lemma SameFileSamePayload(c: Contents, a: MatchId, b: MatchId)
    requires SameFile(a, b)
    ensures PayloadOf(ReadReview(c, a)) == PayloadOf(ReadReview(c, b))
  {
    SameFileReadsAlike(c, a, b);
    hide FileOf, ReadReview;
  }

  // ---- sign-off is always within reach ----

  function Deciding(m: MatchId, d: Review, machine: Machine, author: string, reason: string, now: int): Txn {
    Txn(m, DecideCategory(machine, Confirm, "", "", "", author, reason, d.revision), now)
  }

  function Signing(m: MatchId, d: Review, machine: Machine, author: string, reason: string, now: int): Txn {
    Txn(m, FinalizeReview(machine, "", Checklist(true, true, reason, true), author, reason, d.revision), now)
  }

  /** The match has an identity and its current stream is valid. */
  ghost predicate Signable(d: Review, machine: Machine) {
    && machine.replaySha != "" && TrimSpace(machine.category) != ""
    && ValidStream(SortByStart(CurrentStream(d, machine)), machine.eligible)
  }

  /** The last category decision was taken on this machine output. */
  ghost predicate DecidedFor(d: Review, machine: Machine) {
    && d.decisions != []
    && var decision := d.decisions[|d.decisions| - 1];
       decision.replaySha == machine.replaySha && decision.machineCategory == machine.category
  }

  lemma DecidingDecides(d: Review, m: MatchId, machine: Machine, author: string, reason: string, now: int)
    requires DocInvariant(d) && Signable(d, machine) && TrimSpace(author) != "" && TrimSpace(reason) != ""
    ensures var r := Mutate(d, m, Deciding(m, d, machine, author, reason, now).cmd, now);
      && r.Ok?
      && r.value.0.effective == d.effective && DecidedFor(r.value.0, machine)
  {
    hide TrimSpace;
  }

  lemma SigningSigns(d: Review, m: MatchId, machine: Machine, author: string, reason: string, now: int)
    requires DocInvariant(d) && Signable(d, machine) && TrimSpace(author) != "" && TrimSpace(reason) != ""
    requires DecidedFor(d, machine)
    ensures var r := Mutate(d, m, Signing(m, d, machine, author, reason, now).cmd, now);
      r.Ok? && r.value.0.status == Reviewed && r.value.0.current != NoId
  {
    EditorProperties.FaultMeansInvalid(SortByStart(CurrentStream(d, machine)), machine.eligible);
    hide TrimSpace, StreamFault;
  }

  /** From any sound document of a match with an identity and a valid current stream, one
      decision and one sign-off, each quoting the revision it read, are both accepted. */
  lemma SignOffIsReachable(c: Contents, m: MatchId, machine: Machine, author: string, reason: string, now: int)
    requires DocInvariant(ReadReview(c, m)) && Signable(ReadReview(c, m), machine)
    requires TrimSpace(author) != "" && TrimSpace(reason) != ""
    ensures var first := Perform(c, Deciding(m, ReadReview(c, m), machine, author, reason, now));
      && first.Ok?
      && var second := Perform(first.value, Signing(m, ReadReview(first.value, m), machine, author, reason, now));
         second.Ok? && ReadReview(second.value, m).status == Reviewed && ReadReview(second.value, m).current != NoId
  {
    hide DocInvariant, Signable, TrimSpace, Perform, ReadReview, Signing, Deciding;
    DecidingCommits(c, m, machine, author, reason, now);
    SigningCommits(Perform(c, Deciding(m, ReadReview(c, m), machine, author, reason, now)).value,
                   m, machine, author, reason, now);
  }

  lemma DecidingCommits(c: Contents, m: MatchId, machine: Machine, author: string, reason: string, now: int)
    requires DocInvariant(ReadReview(c, m)) && Signable(ReadReview(c, m), machine)
    requires TrimSpace(author) != "" && TrimSpace(reason) != ""
    ensures var r := Perform(c, Deciding(m, ReadReview(c, m), machine, author, reason, now));
      && r.Ok?
      && var d := ReadReview(r.value, m); DocInvariant(d) && Signable(d, machine) && DecidedFor(d, machine)
  {
    var d := ReadReview(c, m);
    var deciding := Deciding(m, d, machine, author, reason, now);
    assert deciding.matchId == m && deciding.now == now;
    DecidingDecides(d, m, machine, author, reason, now);
    MutateIsSound(d, m, deciding.cmd, now);
    PerformReads(c, deciding);
    hide Mutate, DocInvariant, TrimSpace, ReadReview, Perform, Deciding, ValidStream, SortByStart;
  }

  lemma SigningCommits(c: Contents, m: MatchId, machine: Machine, author: string, reason: string, now: int)
    requires var d := ReadReview(c, m); DocInvariant(d) && Signable(d, machine) && DecidedFor(d, machine)
    requires TrimSpace(author) != "" && TrimSpace(reason) != ""
    ensures var r := Perform(c, Signing(m, ReadReview(c, m), machine, author, reason, now));
      r.Ok? && ReadReview(r.value, m).status == Reviewed && ReadReview(r.value, m).current != NoId
  {
    var d := ReadReview(c, m);
    var signing := Signing(m, d, machine, author, reason, now);
    assert signing.matchId == m && signing.now == now;
    SigningSigns(d, m, machine, author, reason, now);
    MutateIsSound(d, m, signing.cmd, now);
    PerformReads(c, signing);
    hide Mutate, DocInvariant, TrimSpace, ReadReview, Perform, Signing, Signable;
  }

  /** A sound result of a mutation is what is read back. */
  lemma PerformReads(c: Contents, t: Txn)
    requires var r := Mutate(ReadReview(c, t.matchId), t.matchId, t.cmd, t.now); r.Ok? && DocInvariant(r.value.0)
    ensures Perform(c, t).Ok?
    ensures ReadReview(Perform(c, t).value, t.matchId) ==
              Mutate(ReadReview(c, t.matchId), t.matchId, t.cmd, t.now).value.0
  {
    NormalizeKeeps(Mutate(ReadReview(c, t.matchId), t.matchId, t.cmd, t.now).value.0);
    hide Mutate, DocInvariant, Normalize, ValidMatchId;
  }
}
