/** The review store on disk: three files, a durable journal of prior contents, and I/O
    calls each of which may succeed, fail with or without effect, or be cut by a crash.
    Every method is proved, for every schedule of faults, against the committed contents. */
module ReviewStore {
  import opened Wrappers
  import opened ReviewModel

  /** How the next I/O call turns out. A failing removal of the journal has no effect;
      any other failing call may or may not have taken effect. */
  datatype Fault = Fine | FailsUndone | FailsDone | CrashBefore | CrashAfter

  datatype Outcome = Done | Failed | Crashed

  predicate TakesEffect(f: Fault) {
    f == Fine || f == FailsDone || f == CrashAfter
  }

  function OutcomeOf(f: Fault): Outcome {
    match f
    case Fine => Done
    case FailsUndone => Failed
    case FailsDone => Failed
    case CrashBefore => Crashed
    case CrashAfter => Crashed
  }

  /** Nothing more goes wrong. */
  ghost predicate AllFine(faults: seq<Fault>) {
    forall i :: 0 <= i < |faults| ==> faults[i] == Fine
  }

  /** At most one more call fails, and nothing crashes. */
  ghost predicate OneFailure(faults: seq<Fault>) {
    && (forall i :: 0 <= i < |faults| ==> faults[i] == Fine || faults[i] == FailsUndone || faults[i] == FailsDone)
    && (forall i, j :: 0 <= i < j < |faults| ==> faults[i] == Fine || faults[j] == Fine)
  }

  /** What one I/O call leaves of a schedule with at most one failure. */
  ghost predicate Spends(before: seq<Fault>, o: Outcome, after: seq<Fault>) {
    && (AllFine(before) ==> o == Done && AllFine(after))
    && (OneFailure(before) ==> if o == Done then OneFailure(after) else o == Failed && AllFine(after))
  }

  /** The durable prepare record: what both files held before the transaction. */
  datatype Journal = Journal(file: MatchId, priorReview: Option<Review>, priorAudit: Option<seq<AuditEntry>>)

  /** What a caller sees of one call. A crash is seen by nobody. */
  datatype Reply = Replied(review: Review) | Refused(error: ReviewError) | Recovered | StorageError | Lost

  function Restored(reviews: map<MatchId, Review>, file: MatchId, prior: Option<Review>): map<MatchId, Review> {
    match prior
    case Some(r) => reviews[file := r]
    case None => reviews - {file}
  }

  class Store {
    var reviews: map<MatchId, Review>
    var audit: Option<seq<AuditEntry>>
    var journal: Option<Journal>
    var faults: seq<Fault>

    /** The contents that recovery would leave: the files, or what the journal restores. */
    ghost function Committed(): Contents
      reads this
    {
      match journal
      case None => Contents(reviews, audit)
      case Some(j) => Contents(Restored(reviews, j.file, j.priorReview), j.priorAudit)
    }

    constructor (faults: seq<Fault>)
      ensures Committed() == EMPTY && journal == None && this.faults == faults
    {
      reviews, audit, journal := map[], None, None;
      this.faults := faults;
    }

    // ---- single I/O calls ----

    method NextFault() returns (f: Fault)
      modifies this`faults
      ensures Spends(old(faults), OutcomeOf(f), faults)
    {
      if faults == [] {
        f := Fine;
      } else {
        f := faults[0];
        faults := faults[1..];
      }
    }

    method WriteReview(file: MatchId, r: Review) returns (o: Outcome)
      modifies this`faults, this`reviews
      ensures reviews == old(reviews)[file := r] || (o != Done && reviews == old(reviews))
      ensures Spends(old(faults), o, faults)
    {
      var f := NextFault();
      if TakesEffect(f) { reviews := reviews[file := r]; }
      o := OutcomeOf(f);
    }

    method RemoveReview(file: MatchId) returns (o: Outcome)
      modifies this`faults, this`reviews
      ensures reviews == old(reviews) - {file} || (o != Done && reviews == old(reviews))
      ensures Spends(old(faults), o, faults)
    {
      var f := NextFault();
      if TakesEffect(f) { reviews := reviews - {file}; }
      o := OutcomeOf(f);
    }

    method WriteAudit(entries: seq<AuditEntry>) returns (o: Outcome)
      modifies this`faults, this`audit
      ensures audit == Some(entries) || (o != Done && audit == old(audit))
      ensures Spends(old(faults), o, faults)
    {
      var f := NextFault();
      if TakesEffect(f) { audit := Some(entries); }
      o := OutcomeOf(f);
    }

    method RemoveAudit() returns (o: Outcome)
      modifies this`faults, this`audit
      ensures audit == None || (o != Done && audit == old(audit))
      ensures Spends(old(faults), o, faults)
    {
      var f := NextFault();
      if TakesEffect(f) { audit := None; }
      o := OutcomeOf(f);
    }

    method WriteJournal(j: Journal) returns (o: Outcome)
      modifies this`faults, this`journal
      ensures journal == Some(j) || (o != Done && journal == old(journal))
      ensures Spends(old(faults), o, faults)
    {
      var f := NextFault();
      if TakesEffect(f) { journal := Some(j); }
      o := OutcomeOf(f);
    }

    method RemoveJournal() returns (o: Outcome)
      modifies this`faults, this`journal
      ensures o == Done ==> journal == None
      ensures o == Failed ==> journal == old(journal)
      ensures journal == None || journal == old(journal)
      ensures Spends(old(faults), o, faults)
    {
      var f := NextFault();
      if f == Fine || f == CrashAfter { journal := None; }
      o := OutcomeOf(f);
    }

    /** A read can fail or be cut short; it never changes anything. */
    method Read() returns (o: Outcome)
      modifies this`faults
      ensures Spends(old(faults), o, faults)
    {
      var f := NextFault();
      o := OutcomeOf(f);
    }

    // ---- rollback and recovery ----

    method RestoreReview(j: Journal) returns (o: Outcome)
      modifies this`faults, this`reviews
      ensures reviews == Restored(old(reviews), j.file, j.priorReview) || (o != Done && reviews == old(reviews))
      ensures Spends(old(faults), o, faults)
    {
      match j.priorReview
      case Some(r) => o := WriteReview(j.file, r);
      case None => o := RemoveReview(j.file);
    }

    method RestoreAudit(j: Journal) returns (o: Outcome)
      modifies this`faults, this`audit
      ensures audit == j.priorAudit || (o != Done && audit == old(audit))
      ensures Spends(old(faults), o, faults)
    {
      match j.priorAudit
      case Some(entries) => o := WriteAudit(entries);
      case None => o := RemoveAudit();
    }

    /** However far it gets, a rollback leaves the committed contents alone. */
    method RestoreTransaction(j: Journal) returns (o: Outcome)
      requires journal == Some(j)
      modifies this
      ensures Committed() == old(Committed())
      ensures o == Done ==> journal == None
      ensures AllFine(old(faults)) ==> o == Done && AllFine(faults)
    {
      o := RestoreReview(j);
      if o != Done {
        return;
      }
      o := RestoreAudit(j);
      if o != Done {
        return;
      }
      o := RemoveJournal();
    }

    /** Runs before every read and mutation. */
    method RecoverPending() returns (o: Outcome)
      modifies this
      ensures Committed() == old(Committed())
      ensures o == Done ==> journal == None
      ensures AllFine(old(faults)) ==> o == Done && AllFine(faults)
      ensures old(journal) == None ==> reviews == old(reviews) && audit == old(audit) && Spends(old(faults), o, faults)
    {
      o := Read();
      if o == Done && journal.Some? {
        o := RestoreTransaction(journal.value);
      }
    }

    // ---- one transaction ----

    /** A failed promotion or removal is rolled back; a failed rollback keeps the journal. */
    method RollBack(j: Journal) returns (reply: Outcome)
      requires journal == Some(j)
      modifies this
      ensures Committed() == old(Committed()) && reply != Done
      ensures AllFine(old(faults)) ==> reply == Failed && journal == None && AllFine(faults)
    {
      var o := RestoreTransaction(j);
      reply := if o == Crashed then Crashed else Failed;
    }

    method PrepareAndPromote(j: Journal, r: Review, entries: seq<AuditEntry>) returns (o: Outcome)
      requires journal == None && j == Journal(j.file, if j.file in reviews then Some(reviews[j.file]) else None, audit)
      modifies this
      ensures o == Done ==> journal == None && Committed() == Contents(old(reviews)[j.file := r], Some(entries))
      ensures o == Failed ==> Committed() == old(Committed())
      ensures o == Crashed ==>
                Committed() == old(Committed()) || Committed() == Contents(old(reviews)[j.file := r], Some(entries))
      ensures AllFine(old(faults)) ==> o == Done && AllFine(faults)
      ensures OneFailure(old(faults)) && o != Done ==>
                o == Failed && Contents(reviews, audit) == old(Contents(reviews, audit))
    {
      o := WriteJournal(j);
      if o != Done {
        return;
      }
      o := WriteAudit(entries);
      if o == Crashed {
        return;
      }
      if o == Failed {
        o := RollBack(j);
        return;
      }
      o := WriteReview(j.file, r);
      if o == Crashed {
        return;
      }
      if o == Failed {
        o := RollBack(j);
        return;
      }
      o := RemoveJournal();
      if o == Failed {
        o := RollBack(j);
      }
    }

    /** Both files change together or not at all, whatever the calls do. */
    method CommitReviewAndAudit(m: MatchId, r: Review, e: AuditEntry) returns (o: Outcome)
      requires journal == None
      modifies this
      ensures o == Done ==> journal == None && Committed() == Commit(old(Committed()), m, r, e)
      ensures o == Failed ==> Committed() == old(Committed())
      ensures o == Crashed ==> Committed() == old(Committed()) || Committed() == Commit(old(Committed()), m, r, e)
      ensures AllFine(old(faults)) ==> o == Done && AllFine(faults)
      ensures OneFailure(old(faults)) && o != Done ==>
                o == Failed && Contents(reviews, audit) == old(Contents(reviews, audit))
    {
      o := Read();
      if o != Done {
        return;
      }
      var entries := if audit.Some? then audit.value else [];
      var stamped := e.(seqNo := |entries| + 1, matchId := m);
      o := Read();
      if o != Done {
        return;
      }
      var file := FileOf(m);
      var j := Journal(file, if file in reviews then Some(reviews[file]) else None, audit);
      o := PrepareAndPromote(j, r, entries + [stamped]);
    }

    method LoadUnlocked(m: MatchId) returns (o: Outcome, r: Review)
      requires journal == None
      modifies this`faults
      ensures o == Done ==> r == ReadReview(Committed(), m)
      ensures Spends(old(faults), o, faults)
    {
      o := Read();
      r := if FileOf(m) in reviews then Normalize(reviews[FileOf(m)]) else Fresh(m);
    }

    // ---- the calls a client makes ----

    /** No read ever shows a half-committed transaction. */
    method Load(m: MatchId) returns (reply: Reply)
      modifies this
      ensures Committed() == old(Committed()) && !reply.Refused? && !reply.Recovered?
      ensures reply.Replied? ==> journal == None && reply.review == ReadReview(Contents(reviews, audit), m)
      ensures AllFine(old(faults)) ==> reply.Replied? && AllFine(faults)
    {
      var o := RecoverPending();
      if o != Done {
        return if o == Crashed then Lost else StorageError;
      }
      var r;
      o, r := LoadUnlocked(m);
      reply := if o == Done then Replied(r) else if o == Crashed then Lost else StorageError;
    }

    /** Any of the six mutations: a reply means committed, a refusal or a storage error
        means unchanged, and a crash means one of the two. */
    method Apply(t: Txn) returns (reply: Reply)
      modifies this
      ensures !reply.Recovered?
      ensures reply.Replied? ==> journal == None && Perform(old(Committed()), t) == Ok(Committed())
      ensures reply.Replied? ==> FileOf(t.matchId) in reviews && reply.review == reviews[FileOf(t.matchId)]
      ensures reply.Refused? ==> Perform(old(Committed()), t) == Err(reply.error) && Committed() == old(Committed())
      ensures reply.StorageError? ==> Committed() == old(Committed())
      ensures reply.Lost? ==> Committed() == old(Committed()) || Perform(old(Committed()), t) == Ok(Committed())
      ensures AllFine(old(faults)) ==> (reply.Replied? || reply.Refused?) && AllFine(faults)
      ensures OneFailure(old(faults)) && old(journal) == None && !reply.Replied? ==>
                !reply.Lost? && Contents(reviews, audit) == old(Contents(reviews, audit))
    {
      var o := RecoverPending();
      if o != Done {
        return if o == Crashed then Lost else StorageError;
      }
      var r;
      o, r := LoadUnlocked(t.matchId);
      if o != Done {
        return if o == Crashed then Lost else StorageError;
      }
      hide Mutate;
      var mutation := Mutate(r, t.matchId, t.cmd, t.now);
      match mutation
      case Err(e) => reply := Refused(e);
      case Ok((r', e)) =>
        o := CommitReviewAndAudit(t.matchId, r', e);
        reply := if o == Done then Replied(r') else if o == Crashed then Lost else StorageError;
    }
  }
}
