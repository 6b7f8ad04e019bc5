/** Whole runs of the review server: what the calls, their replies and the files left behind
    have to do with each other, for every schedule of faults. */
module ReviewRuns {
  import opened Wrappers
  import opened Sequences
  import opened ReviewModel
  import opened ReviewDocuments
  import opened ReviewProperties
  import opened ReviewStore

  datatype Call = Mutation(txn: Txn) | Reading(matchId: MatchId) | Restart

  // ---- which mutations are committed ----

  /** `committed` lists, in order, every mutation that got a reply, none that got a
      refusal or a storage error, and some of those whose caller crashed. */
  ghost predicate Accounts(calls: seq<Call>, replies: seq<Reply>, committed: seq<Txn>)
    requires |calls| == |replies|
  {
    if calls == [] then committed == []
    else
      var n := |calls| - 1;
      var k := |committed| - 1;
      || (Accounts(calls[..n], replies[..n], committed) && !(calls[n].Mutation? && replies[n].Replied?))
      || (k >= 0 && calls[n].Mutation? && (replies[n].Replied? || replies[n].Lost?)
          && committed[k] == calls[n].txn && Accounts(calls[..n], replies[..n], committed[..k]))
  }

  lemma AccountsSkip(calls: seq<Call>, replies: seq<Reply>, committed: seq<Txn>, call: Call, reply: Reply)
    requires |calls| == |replies| && Accounts(calls, replies, committed) && !(call.Mutation? && reply.Replied?)
    ensures Accounts(calls + [call], replies + [reply], committed)
  {
    assert (calls + [call])[..|calls|] == calls && (replies + [reply])[..|calls|] == replies;
  }

  lemma AccountsTake(calls: seq<Call>, replies: seq<Reply>, committed: seq<Txn>, t: Txn, reply: Reply)
    requires |calls| == |replies| && Accounts(calls, replies, committed) && (reply.Replied? || reply.Lost?)
    ensures Accounts(calls + [Mutation(t)], replies + [reply], committed + [t])
  {
    assert (calls + [Mutation(t)])[..|calls|] == calls && (replies + [reply])[..|calls|] == replies;
    assert (committed + [t])[..|committed|] == committed;
  }

  lemma AccountsNext(
    calls: seq<Call>, i: nat, replies: seq<Reply>, committed: seq<Txn>, reply: Reply, committed': seq<Txn>)
    requires i < |calls| && |replies| == i && Accounts(calls[..i], replies, committed)
    requires || (committed' == committed && !(calls[i].Mutation? && reply.Replied?))
             || (calls[i].Mutation? && (reply.Replied? || reply.Lost?) && committed' == committed + [calls[i].txn])
    ensures Accounts(calls[..i + 1], replies + [reply], committed')
  {
    assert calls[..i] + [calls[i]] == calls[..i + 1];
    if committed' == committed {
      AccountsSkip(calls[..i], replies, committed, calls[i], reply);
    } else {
      AccountsTake(calls[..i], replies, committed, calls[i].txn, reply);
    }
  }

  /** The mutations that got a reply; with `lost`, also those whose caller crashed. */
  function Answered(calls: seq<Call>, replies: seq<Reply>, lost: bool): seq<Txn>
    requires |calls| == |replies|
  {
    if calls == [] then []
    else
      var n := |calls| - 1;
      Answered(calls[..n], replies[..n], lost) +
      (if calls[n].Mutation? && (replies[n].Replied? || (lost && replies[n].Lost?)) then [calls[n].txn] else [])
  }

  lemma {:induction false} AccountsBetween(calls: seq<Call>, replies: seq<Reply>, committed: seq<Txn>)
    requires |calls| == |replies| && Accounts(calls, replies, committed)
    ensures Subsequence(Answered(calls, replies, false), committed)
    ensures Subsequence(committed, Answered(calls, replies, true))
  {
    if calls != [] {
      var n, k := |calls| - 1, |committed| - 1;
      var told, most := Answered(calls[..n], replies[..n], false), Answered(calls[..n], replies[..n], true);
      assert told + [] == told && most + [] == most;
      if Accounts(calls[..n], replies[..n], committed) && !(calls[n].Mutation? && replies[n].Replied?) {
        AccountsBetween(calls[..n], replies[..n], committed);
        hide Subsequence, Accounts;
        if calls[n].Mutation? { SubsequenceLonger(committed, most, calls[n].txn); }
      } else {
        var t := calls[n].txn;
        AccountsBetween(calls[..n], replies[..n], committed[..k]);
        hide Subsequence, Accounts;
        assert committed == committed[..k] + [t];
        SubsequenceBoth(committed[..k], most, t);
        SubsequenceBoth(told, committed[..k], t);
        SubsequenceLonger(told, committed[..k], t);
      }
    }
  }

  lemma {:induction false} NothingLost(calls: seq<Call>, replies: seq<Reply>)
    requires |calls| == |replies| && forall i :: 0 <= i < |calls| && calls[i].Mutation? ==> !replies[i].Lost?
    ensures Answered(calls, replies, true) == Answered(calls, replies, false)
  {
    if calls != [] { NothingLost(calls[..|calls| - 1], replies[..|calls| - 1]); }
  }

  /** Without a crash in a mutation, the committed mutations are exactly the answered ones. */
  lemma CommittedAreAnswered(calls: seq<Call>, replies: seq<Reply>, committed: seq<Txn>)
    requires |calls| == |replies| && Accounts(calls, replies, committed)
    requires forall i :: 0 <= i < |calls| && calls[i].Mutation? ==> !replies[i].Lost?
    ensures committed == Answered(calls, replies, false)
  {
    AccountsBetween(calls, replies, committed);
    NothingLost(calls, replies);
    SubsequenceLength(Answered(calls, replies, false), committed);
    SubsequenceLength(committed, Answered(calls, replies, true));
    hide *;
  }

  // ---- what the files show of them ----

  /** What the audit records of a transaction. */
  function Labels(txns: seq<Txn>): seq<(MatchId, Action)> {
    if txns == [] then []
    else
      var t := txns[|txns| - 1];
      Labels(txns[..|txns| - 1]) + [(t.matchId, ActionOf(t.cmd))]
  }

  function AuditLabels(entries: seq<AuditEntry>): seq<(MatchId, Action)> {
    if entries == [] then []
    else
      var e := entries[|entries| - 1];
      AuditLabels(entries[..|entries| - 1]) + [(e.matchId, e.action)]
  }

  lemma {:induction false} SameLabels(txns: seq<Txn>, entries: seq<AuditEntry>)
    requires |entries| == |txns|
    requires forall i :: 0 <= i < |txns| ==>
               entries[i].matchId == txns[i].matchId && entries[i].action == ActionOf(txns[i].cmd)
    ensures AuditLabels(entries) == Labels(txns)
  {
    hide ActionOf;
    if txns != [] {
      var n := |txns| - 1;
      assert forall i :: 0 <= i < n ==> txns[..n][i] == txns[i] && entries[..n][i] == entries[i];
      SameLabels(txns[..n], entries[..n]);
    }
  }

  lemma {:induction false} LabelsInOrder(a: seq<Txn>, b: seq<Txn>)
    requires Subsequence(a, b)
    ensures Subsequence(Labels(a), Labels(b))
  {
    hide ActionOf;
    if a != [] {
      var k, n := |a| - 1, |b| - 1;
      var entry := (b[n].matchId, ActionOf(b[n].cmd));
      if Subsequence(a, b[..n]) {
        LabelsInOrder(a, b[..n]);
        hide Subsequence;
        SubsequenceLonger(Labels(a), Labels(b[..n]), entry);
      } else {
        LabelsInOrder(a[..k], b[..n]);
        hide Subsequence;
        SubsequenceBoth(Labels(a[..k]), Labels(b[..n]), entry);
      }
    }
  }

  /** The audit holds every answered mutation, and beyond those only some whose caller
      crashed, all in the order of the calls. */
  lemma AuditOfTheCalls(calls: seq<Call>, replies: seq<Reply>, committed: seq<Txn>)
    requires |calls| == |replies| && Accounts(calls, replies, committed) && Replay(committed).Some?
    ensures var entries := Entries(Replay(committed).value.audit);
      && SequenceIsExact(entries)
      && Subsequence(Labels(Answered(calls, replies, false)), AuditLabels(entries))
      && Subsequence(AuditLabels(entries), Labels(Answered(calls, replies, true)))
  {
    AccountsBetween(calls, replies, committed);
    AuditIsTheLog(committed);
    AuditIsNumbered(committed);
    hide *;
    SameLabels(committed, Entries(Replay(committed).value.audit));
    LabelsInOrder(Answered(calls, replies, false), committed);
    LabelsInOrder(committed, Answered(calls, replies, true));
  }

  predicate Rivals(t: Txn, u: Txn) {
    SameFile(t.matchId, u.matchId) && Guarded(t.cmd) && Guarded(u.cmd)
  }

  /** Of all answered edits, decisions and sign-offs of one file, no two quoted the same
      revision. */
  lemma NoAnsweredUpdateIsLost(calls: seq<Call>, replies: seq<Reply>, committed: seq<Txn>)
    requires |calls| == |replies| && Accounts(calls, replies, committed) && Replay(committed).Some?
    ensures var told := Answered(calls, replies, false);
      forall i, j :: 0 <= i < j < |told| && Rivals(told[i], told[j]) ==> told[i].cmd.expected != told[j].cmd.expected
  {
    AccountsBetween(calls, replies, committed);
    var told := Answered(calls, replies, false);
    hide Accounts, Answered, Replay, Subsequence, SameFile;
    forall i, j | 0 <= i < j < |told| && Rivals(told[i], told[j])
      ensures told[i].cmd.expected != told[j].cmd.expected
    {
      var p, q := SubsequenceKeepsOrder(told, committed, i, j);
      NoLostUpdate(committed, p, q);
    }
  }

  /** Signed-off documents show what they were signed off with, and the audit of an id
      agrees with its document unless another id wrote to the document's histories, which
      only ids of the fallback file allow. */
  ghost predicate DocumentsSound(c: Contents, committed: seq<Txn>) {
    && (forall m :: Signed(ReadReview(c, m), LastSigning(committed, m)))
    && (forall m :: AuditAgrees(c, m) <==> forall i :: 0 <= i < |committed| ==> !Misfiled(committed[i], m))
    && (forall m :: ValidMatchId(m) && m != FALLBACK ==> AuditAgrees(c, m))
  }

  ghost predicate Signed(d: Review, signing: Option<Machine>) {
    && (d.status == Reviewed <==> d.current != NoId)
    && (d.current != NoId ==> signing.Some? && SignedBy(d, signing.value))
  }

  lemma ReplayedDocuments(committed: seq<Txn>)
    requires Replay(committed).Some?
    ensures DocumentsSound(Replay(committed).value, committed)
  {
    hide Replay, ReadReview, SignedBy, AuditAgrees, LastSigning, ValidMatchId, Misfiled;
    var c := Replay(committed).value;
    forall m ensures Signed(ReadReview(c, m), LastSigning(committed, m)) {
      SignOff(committed, m);
    }
    forall m ensures AuditAgrees(c, m) <==> forall i :: 0 <= i < |committed| ==> !Misfiled(committed[i], m) {
      AuditAgreement(committed, m);
    }
    forall m | ValidMatchId(m) && m != FALLBACK ensures AuditAgrees(c, m) {
      OwnAuditAgrees(committed, m);
    }
  }

  // ---- runs ----

  function IdOf(call: Call): MatchId {
    match call
    case Mutation(t) => t.matchId
    case Reading(m) => m
    case Restart => ""
  }

  /** Every document a client was shown is still there, with at most more in its histories. */
  ghost predicate Shown(calls: seq<Call>, replies: seq<Reply>, c: Contents)
    requires |replies| <= |calls|
  {
    forall k :: 0 <= k < |replies| && replies[k].Replied? ==> Grows(replies[k].review, ReadReview(c, IdOf(calls[k])))
  }

  lemma ReplayStep(txns: seq<Txn>, t: Txn, before: Contents, after: Contents)
    requires Replay(txns) == Some(before) && Perform(before, t) == Ok(after)
    ensures Replay(txns + [t]) == Some(after)
  {
    assert (txns + [t])[..|txns|] == txns;
  }

  lemma StillShown(calls: seq<Call>, replies: seq<Reply>, c: Contents, t: Txn)
    requires |replies| <= |calls| && Shown(calls, replies, c) && DocsSound(c) && Perform(c, t).Ok?
    ensures Shown(calls, replies, Perform(c, t).value)
  {
    hide Perform, ReadReview, Grows, DocsSound, SameFile;
    var c' := Perform(c, t).value;
    forall k | 0 <= k < |replies| && replies[k].Replied?
      ensures Grows(replies[k].review, ReadReview(c', IdOf(calls[k])))
    {
      var m := IdOf(calls[k]);
      PerformDoc(c, t, m);
      if SameFile(t.matchId, m) { GrowsTransitive(replies[k].review, ReadReview(c, m), ReadReview(c', m)); }
    }
  }

  lemma NowShown(calls: seq<Call>, replies: seq<Reply>, c: Contents, reply: Reply)
    requires |replies| < |calls| && Shown(calls, replies, c)
    requires reply.Replied? ==> reply.review == ReadReview(c, IdOf(calls[|replies|]))
    ensures Shown(calls, replies + [reply], c)
  {
    hide ReadReview;
  }

  // ---- runs without faults ----

  /** What a call answers when nothing goes wrong, and what it leaves. */
  function AnswerTo(c: Contents, call: Call): Reply {
    match call
    case Reading(m) => Replied(ReadReview(c, m))
    case Restart => Recovered
    case Mutation(t) =>
      match Perform(c, t)
      case Err(e) => Refused(e)
      case Ok(c') => Replied(ReadReview(c', t.matchId))
  }

  function After(c: Contents, call: Call): Contents {
    if call.Mutation? && Perform(c, call.txn).Ok? then Perform(c, call.txn).value else c
  }

  function Serial(calls: seq<Call>): Contents {
    if calls == [] then EMPTY else After(Serial(calls[..|calls| - 1]), calls[|calls| - 1])
  }

  ghost predicate AnsweredInTurn(calls: seq<Call>, replies: seq<Reply>)
    requires |replies| <= |calls|
  {
    forall k :: 0 <= k < |replies| ==> replies[k] == AnswerTo(Serial(calls[..k]), calls[k])
  }

  lemma AnswerNext(calls: seq<Call>, replies: seq<Reply>, reply: Reply)
    requires |replies| < |calls| && AnsweredInTurn(calls, replies)
    requires reply == AnswerTo(Serial(calls[..|replies|]), calls[|replies|])
    ensures AnsweredInTurn(calls, replies + [reply])
    ensures Serial(calls[..|replies| + 1]) == After(Serial(calls[..|replies|]), calls[|replies|])
  {
    assert calls[..|replies| + 1][..|replies|] == calls[..|replies|];
    hide AnswerTo, After;
  }

  /** One call of a run, with the list of committed transactions brought up to date. A
      reply shows the committed document. */
  method RunCall(store: Store, call: Call, ghost committed: seq<Txn>) returns (reply: Reply, ghost committed': seq<Txn>)
    requires Replay(committed) == Some(store.Committed())
    modifies store
    ensures Replay(committed') == Some(store.Committed())
    ensures reply.Replied? ==> reply.review == ReadReview(store.Committed(), IdOf(call))
    ensures || (committed' == committed && store.Committed() == old(store.Committed())
                && !(call.Mutation? && reply.Replied?))
            || (call.Mutation? && (reply.Replied? || reply.Lost?) && committed' == committed + [call.txn]
                && Perform(old(store.Committed()), call.txn) == Ok(store.Committed()))
    ensures AllFine(old(store.faults)) ==>
              && AllFine(store.faults) && reply == AnswerTo(old(store.Committed()), call)
              && store.Committed() == After(old(store.Committed()), call)
  {
    hide Perform, Replay, ReadReview;
    ghost var before := store.Committed();
    committed' := committed;
    match call {
      case Mutation(t) =>
        reply := store.Apply(t);
        if Perform(before, t) == Ok(store.Committed()) && (reply.Replied? || reply.Lost?) {
          ReplayStep(committed, t, before, store.Committed());
          committed' := committed + [t];
        }
        ReplaySound(committed');
        ReadIsSound(store.Committed(), t.matchId);
      case Reading(m) => reply := store.Load(m);
      case Restart =>
        var o := store.RecoverPending();
        reply := if o == Done then Recovered else if o == Crashed then Lost else StorageError;
    }
  }

  /** Crash atomicity over whole runs: whatever the calls and whatever the faults, the
      committed contents are those of replaying exactly the accounted transactions; no
      document shown to a client is ever taken back; and after a final recovery that
      succeeds the two files themselves hold the contents, every document sound and the
      audit listing the calls. */
  method RunCalls(
    calls: seq<Call>, faults: seq<Fault>)
    returns (store: Store, replies: seq<Reply>, recovered: bool, ghost committed: seq<Txn>)
    ensures |replies| == |calls| && Accounts(calls, replies, committed)
    ensures Replay(committed) == Some(store.Committed()) && Shown(calls, replies, store.Committed())
    ensures AllFine(faults) ==>
              recovered && AnsweredInTurn(calls, replies) && Contents(store.reviews, store.audit) == Serial(calls)
    ensures recovered ==> store.journal == None && Replay(committed) == Some(Contents(store.reviews, store.audit))
    ensures recovered ==> DocumentsSound(Contents(store.reviews, store.audit), committed)
    ensures recovered ==>
              && SequenceIsExact(Entries(store.audit))
              && Subsequence(Labels(Answered(calls, replies, false)), AuditLabels(Entries(store.audit)))
              && Subsequence(AuditLabels(Entries(store.audit)), Labels(Answered(calls, replies, true)))
  {
    store := new Store(faults);
    replies, committed := [], [];
    assert Accounts(calls[..0], replies, committed) && Replay(committed) == Some(EMPTY);
    assert Shown(calls, replies, store.Committed()) && AnsweredInTurn(calls, replies) && Serial(calls[..0]) == EMPTY;
    hide *;
    for i := 0 to |calls|
      invariant fresh(store) && |replies| == i
      invariant Replay(committed) == Some(store.Committed()) && Accounts(calls[..i], replies, committed)
      invariant Shown(calls, replies, store.Committed())
      invariant AllFine(faults) ==>
                  AllFine(store.faults) && AnsweredInTurn(calls, replies) && store.Committed() == Serial(calls[..i])
    {
      ghost var before := store.Committed();
      var reply;
      ghost var committed';
      ReplaySound(committed);
      reply, committed' := RunCall(store, calls[i], committed);
      AccountsNext(calls, i, replies, committed, reply, committed');
      if committed' != committed { StillShown(calls, replies, before, calls[i].txn); }
      NowShown(calls, replies, store.Committed(), reply);
      if AllFine(faults) { AnswerNext(calls, replies, reply); }
      replies, committed := replies + [reply], committed';
    }
    assert calls[..|calls|] == calls;
    var o := store.RecoverPending();
    recovered := o == Done;
    ReplayedDocuments(committed);
    AuditOfTheCalls(calls, replies, committed);
  }
}
