/** One session's raw log: the file, the process that appends to it, and every way the
    file system can fail it. The ghost fields say what the file durably holds. */
module RawLog {
  import opened Wrappers
  import opened EventRefs
  import opened RawLines
  import opened Sequences

  /** How the next file call turns out. `Short(k)` is a write that leaves `k` characters
      and reports trouble; `Crash(k)` is a crash that leaves them. For a call that writes
      nothing, `Short` is a failure without effect, and `Crash(0)` a crash before it. */
  datatype Fault = Fine | Short(k: nat) | Crash(k: nat)

  datatype Outcome = Done | Failed | Crashed

  /** Nothing more goes wrong. */
  ghost predicate AllFine(faults: seq<Fault>) {
    forall i :: 0 <= i < |faults| ==> faults[i] == Fine
  }

  /** At most one more call fails, and nothing crashes. */
  ghost predicate OneFailure(faults: seq<Fault>) {
    && (forall i :: 0 <= i < |faults| ==> !faults[i].Crash?)
    && (forall i, j :: 0 <= i < j < |faults| ==> faults[i] == Fine || faults[j] == Fine)
  }

  /** What one file call leaves of a schedule with at most one failure. */
  ghost predicate Spends(before: seq<Fault>, o: Outcome, after: seq<Fault>) {
    && (AllFine(before) ==> o == Done && AllFine(after))
    && (OneFailure(before) ==> if o == Done then OneFailure(after) else o == Failed && AllFine(after))
  }

  datatype AppendReply = Appended(record: Record) | InvalidJson | StoreSealed | AppendFailed | Lost

  /** What a file durably holds, and for whom: the records `found` by the process that
      opened it, those it has `acked` since, and all that were ever acknowledged. */
  datatype Ledger = Ledger(kept: seq<Record>, found: seq<Record>, acked: seq<Record>, allAcked: seq<Record>)

  ghost predicate Settled(l: Ledger, session: string) {
    WellNumbered(l.kept, session) && l.kept == l.found + l.acked && Subsequence(l.allAcked, l.kept)
  }

  /** Beyond what was found and acknowledged the file holds at most one record. */
  ghost predicate Sound(l: Ledger, session: string) {
    && WellNumbered(l.kept, session)
    && l.found + l.acked <= l.kept && |l.kept| <= |l.found| + |l.acked| + 1
    && Subsequence(l.allAcked, l.kept)
  }

  /** The file is the text of the kept records, then an unterminated tail. */
  ghost predicate Holds(content: string, kept: seq<Record>) {
    Text(kept) <= content && Lacks(content[|Text(kept)|..], NEWLINE)
  }

  predicate NextIs(record: Record, l: Ledger, session: string) {
    record.Current? && record.session == session && record.sequence == |l.kept| + 1
  }

  function Acknowledged(l: Ledger, record: Record): Ledger {
    Ledger(l.kept + [record], l.found, l.acked + [record], l.allAcked + [record])
  }

  lemma AcknowledgeSettles(l: Ledger, session: string, record: Record)
    requires Settled(l, session) && NextIs(record, l, session)
    ensures Settled(Acknowledged(l, record), session) && Text(l.kept + [record]) == Text(l.kept) + Line(record)
  {
    TextAppend(l.kept, record);
    SubsequenceBoth(l.allAcked, l.kept, record);
    NumberedNext(l.kept, record, session);
    hide Subsequence, Line, Text, WellNumbered;
    assert l.found + (l.acked + [record]) == (l.found + l.acked) + [record];
  }

  lemma NumberedNext(kept: seq<Record>, record: Record, session: string)
    requires WellNumbered(kept, session) && record.Current? && record.session == session
    requires record.sequence == |kept| + 1
    ensures WellNumbered(kept + [record], session)
  {}

  lemma SettledIsSound(l: Ledger, session: string)
    requires Settled(l, session)
    ensures Sound(l, session)
  {
    hide Subsequence;
  }

  /** A record that is in the file but was never acknowledged. */
  lemma InFlightIsSound(l: Ledger, session: string, record: Record)
    requires Settled(l, session) && NextIs(record, l, session)
    ensures Sound(l.(kept := l.kept + [record]), session)
  {
    SubsequenceLonger(l.allAcked, l.kept, record);
    hide Subsequence;
  }

  /** Whatever part of a line stayed, it is a whole record or an unterminated tail. */
  lemma PartialLine(kept: seq<Record>, record: Record, n: nat)
    requires n <= |Line(record)|
    ensures n == |Line(record)| ==> Holds(Text(kept) + Line(record)[..n], kept + [record])
    ensures n < |Line(record)| ==> Holds(Text(kept) + Line(record)[..n], kept)
  {
    EncodeReadsBack(record);
    TextAppend(kept, record);
    hide Encode;
    var content := Text(kept) + Line(record)[..n];
    if n < |Line(record)| {
      assert content[|Text(kept)|..] == Encode(record)[..n];
    } else {
      assert content == Text(kept + [record]) && content[|content|..] == [];
    }
  }

  lemma TextHolds(kept: seq<Record>)
    ensures Holds(Text(kept), kept)
  {
    assert Text(kept)[|Text(kept)|..] == [];
  }

  lemma RecoveryReads(content: string, l: Ledger, session: string)
    requires Sound(l, session) && Holds(content, l.kept)
    ensures Scan(content, session, 0) == Some(|l.kept|) && CommittedLength(content) == |Text(l.kept)| <= |content|
    ensures content[..|Text(l.kept)|] == Text(l.kept)
  {
    var tail := content[|Text(l.kept)|..];
    assert content == Text(l.kept) + tail;
    ScanCounts(l.kept, tail, session);
    CommittedIsText(l.kept, tail);
  }

  lemma FoundIsSettled(l: Ledger, session: string)
    requires Sound(l, session)
    ensures var l' := l.(found := l.kept, acked := []);
      Settled(l', session) && Sound(l', session) && Holds(Text(l.kept), l.kept)
  {
    hide Subsequence;
    assert l.kept + [] == l.kept;
    assert Text(l.kept)[|Text(l.kept)|..] == [];
  }

  class Log {
    const session: string
    var content: string
    var faults: seq<Fault>
    // the running process
    var live: bool
    var fileOpen: bool
    var sealed: bool
    var closed: bool
    var sequence: nat
    ghost var ledger: Ledger

    ghost predicate Accepting()
      reads this`live, this`sealed, this`closed
    {
      live && !sealed && !closed
    }

    /** While the process accepts appends the file holds exactly the settled ledger. */
    ghost predicate Valid()
      reads this`content, this`live, this`sealed, this`closed, this`sequence, this`ledger
    {
      && Sound(ledger, session) && Holds(content, ledger.kept)
      && (Accepting() ==> Settled(ledger, session) && content == Text(ledger.kept) && sequence == |ledger.kept|)
    }

    constructor (session: string, faults: seq<Fault>)
      ensures Valid() && this.session == session && content == "" && !live && ledger == Ledger([], [], [], [])
      ensures this.faults == faults
    {
      this.session, this.faults := session, faults;
      content, live, fileOpen, sealed, closed, sequence := "", false, false, false, false, 0;
      ledger := Ledger([], [], [], []);
    }

    // ---- single file calls ----

    method NextFault() returns (f: Fault)
      modifies this`faults
      ensures Spends(old(faults), if f.Fine? then Done else if f.Short? then Failed else Crashed, faults)
    {
      if faults == [] {
        f := Fine;
      } else {
        f := faults[0];
        faults := faults[1..];
      }
    }

    /** A call that writes nothing: open, seek, stat. */
    method Touch() returns (o: Outcome)
      modifies this`faults
      ensures Spends(old(faults), o, faults)
    {
      var f := NextFault();
      o := if f.Fine? then Done else if f.Short? then Failed else Crashed;
    }

    /** Append at the end of the file; trouble may leave any `n` characters, even all. */
    method Write(line: string) returns (o: Outcome, n: nat)
      modifies this`faults, this`content
      ensures n <= |line| && content == old(content) + line[..n] && (o == Done ==> n == |line|)
      ensures Spends(old(faults), o, faults)
    {
      var f := NextFault();
      match f {
        case Fine => o, n := Done, |line|;
        case Short(k) => o, n := Failed, if k < |line| then k else |line|;
        case Crash(k) => o, n := Crashed, if k < |line| then k else |line|;
      }
      content := content + line[..n];
    }

    method Truncate(size: nat) returns (o: Outcome)
      requires size <= |content|
      modifies this`faults, this`content
      ensures o == Done ==> content == old(content)[..size]
      ensures o == Failed ==> content == old(content)
      ensures content == old(content) || content == old(content)[..size]
      ensures Spends(old(faults), o, faults)
    {
      var f := NextFault();
      if f.Fine? || (f.Crash? && f.k > 0) {
        content := content[..size];
      }
      o := if f.Fine? then Done else if f.Short? then Failed else Crashed;
    }

    // ---- appending ----

    /** Cut the file back to where the append began, and make sure of it. */
    method Rollback(offset: nat) returns (o: Outcome)
      requires offset <= |content|
      modifies this`faults, this`content
      ensures o == Done ==> content == old(content)[..offset]
      ensures content == old(content) || content == old(content)[..offset]
      ensures AllFine(old(faults)) ==> o == Done && AllFine(faults)
    {
      o := Truncate(offset);
      if o != Done {
        return;
      }
      o := Touch();
      if o != Done {
        return;
      }
      o := Touch();
      if o == Done && |content| != offset {
        o := Failed;
      }
    }

    /** Open the file if need be and seek to its end. */
    method Ready() returns (o: Outcome)
      requires Valid() && Accepting()
      modifies this`faults, this`fileOpen, this`live
      ensures Valid() && (o != Crashed ==> Accepting())
      ensures Spends(old(faults), o, faults)
    {
      o := Done;
      if !fileOpen {
        o := Touch();
        fileOpen := o == Done;
      }
      if o == Done {
        o := Touch();
      }
      if o == Crashed {
        live := false;
      }
    }

    /** Only a clean write is acknowledged. A failed one is undone, or the store is sealed
        for good; a crash leaves at most this one record beyond the acknowledged ones. */
    method Append(raw: string, wellFormed: bool) returns (reply: AppendReply)
      requires Valid()
      modifies this
      ensures Valid()
      ensures reply.Appended? ==> reply.record == Current(session, |old(ledger).kept| + 1, raw)
      ensures reply.Appended? ==> ledger == Acknowledged(old(ledger), reply.record)
      ensures !reply.Appended? ==> ledger == old(ledger).(kept := ledger.kept) && old(ledger).kept <= ledger.kept
      ensures !reply.Appended? && Accepting() ==> content == old(content)
      ensures !wellFormed || !old(Accepting()) ==>
                ledger == old(ledger) && content == old(content) && Accepting() == old(Accepting())
      ensures !wellFormed ==> reply == InvalidJson
      ensures wellFormed && !old(Accepting()) ==> reply == StoreSealed
      ensures AllFine(old(faults)) ==> AllFine(faults) && (wellFormed && old(Accepting()) ==> reply.Appended?)
      ensures OneFailure(old(faults)) && old(Accepting()) ==> Accepting()
    {
      if !wellFormed {
        return InvalidJson;
      }
      if !live || sealed || closed {
        return StoreSealed;
      }
      var o := Ready();
      if o != Done {
        return if o == Crashed then Lost else AppendFailed;
      }
      reply := AppendRecord(Current(session, sequence + 1, raw));
    }

    method AppendRecord(record: Record) returns (reply: AppendReply)
      requires Valid() && Accepting() && NextIs(record, ledger, session)
      modifies this`faults, this`content, this`sequence, this`live, this`sealed, this`ledger
      ensures Valid() && !reply.InvalidJson?
      ensures reply.Appended? ==> reply.record == record && ledger == Acknowledged(old(ledger), record)
      ensures !reply.Appended? ==> ledger == old(ledger).(kept := ledger.kept) && old(ledger).kept <= ledger.kept
      ensures !reply.Appended? && Accepting() ==> content == old(content)
      ensures AllFine(old(faults)) ==> AllFine(faults) && reply.Appended?
      ensures OneFailure(old(faults)) ==> Accepting()
    {
      var prior := |content|;
      var o, n := Write(Line(record));
      if o == Done {
        hide Settled, Sound, Holds, Text;
        sequence := sequence + 1;
        AcknowledgeSettles(ledger, session, record);
        ledger := Acknowledged(ledger, record);
        SettledIsSound(ledger, session);
        assert Line(record)[..n] == Line(record);
        TextHolds(ledger.kept);
        return Appended(record);
      }
      reply := Recoil(record, prior, n, o == Crashed);
    }

    /** After a write went wrong: roll back, or give up. */
    method Recoil(record: Record, prior: nat, n: nat, crashed: bool) returns (reply: AppendReply)
      requires Settled(ledger, session) && NextIs(record, ledger, session) && Accepting() && sequence == |ledger.kept|
      requires prior == |Text(ledger.kept)| && n <= |Line(record)| && content == Text(ledger.kept) + Line(record)[..n]
      modifies this`faults, this`content, this`live, this`sealed, this`ledger
      ensures Valid() && ledger == old(ledger).(kept := ledger.kept) && old(ledger).kept <= ledger.kept
      ensures reply.AppendFailed? || reply.StoreSealed? || reply.Lost?
      ensures Accepting() ==> content == Text(old(ledger).kept)
      ensures AllFine(old(faults)) && !crashed ==> Accepting() && reply.AppendFailed?
    {
      SettledIsSound(ledger, session);
      InFlightIsSound(ledger, session, record);
      PartialLine(ledger.kept, record, n);
      hide Settled;
      hide Sound;
      hide Line;
      var o := Crashed;
      if !crashed {
        assert content[..prior] == Text(ledger.kept);
        o := Rollback(prior);
      }
      if o == Crashed { live := false; }
      if o == Failed { sealed := true; }
      if content != Text(ledger.kept) && n == |Line(record)| {
        ledger := ledger.(kept := ledger.kept + [record]);
      }
      reply := if o == Crashed then Lost else if o == Failed then StoreSealed else AppendFailed;
    }

    method Close() returns (o: Outcome)
      requires Valid()
      modifies this`faults, this`live, this`closed
      ensures Valid() && !Accepting()
      ensures AllFine(old(faults)) ==> o == Done && AllFine(faults)
    {
      o := Done;
      if live && !closed && fileOpen {
        o := Touch();
      }
      closed := true;
    }

    // ---- recovery ----

    /** The part of `data` up to its last newline, found from the end. */
    method CommittedPrefix(data: string) returns (committed: nat)
      ensures committed == CommittedLength(data) && committed <= |data|
    {
      committed := |data|;
      assert data[..|data|] == data;
      while committed > 0 && data[committed - 1] != NEWLINE
        invariant committed <= |data| && CommittedLength(data) == CommittedLength(data[..committed])
      {
        assert data[..committed][..committed - 1] == data[..committed - 1];
        committed := committed - 1;
      }
    }

    /** Walk over the terminated lines, checking each against its number. */
    method CheckLines(data: string) returns (r: Option<nat>)
      ensures r == Scan(data, session, 0)
    {
      var pos, n := 0, 0;
      assert data[0..] == data;
      while true
        invariant pos <= |data| && Scan(data, session, 0) == Scan(data[pos..], session, n)
        decreases |data| - pos
      {
        var rest := data[pos..];
        var at := IndexOf(rest, NEWLINE);
        if at.None? {
          return Some(n);
        }
        IndexOfInRange(rest, NEWLINE);
        if at.value == 0 || !Validate(rest[..at.value], session, n + 1) {
          return None;
        }
        assert rest[at.value + 1..] == data[pos + at.value + 1..];
        pos, n := pos + at.value + 1, n + 1;
      }
    }

    /** A new process opens the log. Only the file system can make it fail: the contents
        never do. It finds every kept record and starts from the next number. */
    method Reopen() returns (o: Outcome)
      requires Valid()
      modifies this`faults, this`content, this`live, this`fileOpen, this`sealed, this`closed, this`sequence, this`ledger
      ensures Valid() && ledger.kept == old(ledger).kept && ledger.allAcked == old(ledger).allAcked
      ensures o == Done ==> Accepting() && content == Text(ledger.kept) && sequence == |ledger.kept|
      ensures o == Done ==> ledger.found == ledger.kept && ledger.acked == []
      ensures o != Done ==> !Accepting() && ledger == old(ledger)
      ensures AllFine(old(faults)) ==> o == Done && AllFine(faults)
    {
      live, fileOpen, sealed, closed := false, false, false, false;
      o := Touch();
      if o != Done {
        return;
      }
      hide Holds, Sound, Settled, Text, Scan, CommittedLength;
      RecoveryReads(content, ledger, session);
      var committed := CommittedPrefix(content);
      var counted := CheckLines(content);
      if committed != |content| {
        o := TruncateTail(committed);
        if o != Done {
          return;
        }
      }
      Resume(counted.value);
    }

    /** Every kept record counts as found from here on. */
    method Resume(counted: nat)
      requires Valid() && !sealed && !closed && content == Text(ledger.kept) && counted == |ledger.kept|
      modifies this`live, this`sequence, this`ledger
      ensures Valid() && Accepting() && sequence == counted
      ensures ledger == old(ledger).(found := old(ledger).kept, acked := [])
    {
      hide Holds, Sound, Settled, Text;
      FoundIsSettled(ledger, session);
      ledger := ledger.(found := ledger.kept, acked := []);
      live, sequence := true, counted;
    }

    method TruncateTail(committed: nat) returns (o: Outcome)
      requires Valid() && !Accepting() && committed == |Text(ledger.kept)|
      modifies this`faults, this`content
      ensures Valid() && (o == Done ==> content == Text(ledger.kept))
      ensures Spends(old(faults), o, faults)
    {
      assert content[..committed] == Text(ledger.kept);
      o := Truncate(committed);
      assert Lacks(content[committed..], NEWLINE);
    }

    /** The process dies between calls. */
    method Die()
      requires Valid()
      modifies this`live
      ensures Valid() && !Accepting()
    {
      live := false;
    }
  }

  // ---- whole histories ----

  datatype Call = DoAppend(raw: string, wellFormed: bool) | DoClose | DoReopen | DoDie

  /** The records acknowledged by the replies of a history, in order. */
  function Acks(replies: seq<Option<AppendReply>>): seq<Record> {
    if replies == [] then []
    else
      var last := replies[|replies| - 1];
      Acks(replies[..|replies| - 1]) + (if last.Some? && last.value.Appended? then [last.value.record] else [])
  }

  /** How many processes open the log. */
  function Openings(calls: seq<Call>): nat {
    if calls == [] then 0 else Openings(calls[..|calls| - 1]) + (if calls[|calls| - 1].DoReopen? then 1 else 0)
  }

  /** The process that accepts appends has left no record unacknowledged so far. */
  ghost function Unsettled(log: Log): int
    reads log
  {
    |log.ledger.kept| - |log.ledger.allAcked| + (if log.Accepting() then 1 else 0)
  }

  // ---- histories without faults ----

  predicate OpenAfter(open: bool, call: Call) {
    call.DoReopen? || (call.DoAppend? && open)
  }

  /** What a call answers, and what it adds, to a log of `n` records. */
  function AnswerTo(session: string, open: bool, n: nat, call: Call): Option<AppendReply> {
    match call
    case DoAppend(raw, wellFormed) =>
      Some(if !wellFormed then InvalidJson else if !open then StoreSealed else Appended(Current(session, n + 1, raw)))
    case _ => None
  }

  function OpenAt(calls: seq<Call>): bool {
    calls != [] && OpenAfter(OpenAt(calls[..|calls| - 1]), calls[|calls| - 1])
  }

  ghost predicate AnsweredInTurn(session: string, calls: seq<Call>, replies: seq<Option<AppendReply>>)
    requires |replies| <= |calls|
  {
    forall k :: 0 <= k < |replies| ==>
      replies[k] == AnswerTo(session, OpenAt(calls[..k]), |Acks(replies[..k])|, calls[k])
  }

  lemma AnswerNext(
    session: string, calls: seq<Call>, replies: seq<Option<AppendReply>>, reply: Option<AppendReply>)
    requires |replies| < |calls| && AnsweredInTurn(session, calls, replies)
    requires reply == AnswerTo(session, OpenAt(calls[..|replies|]), |Acks(replies)|, calls[|replies|])
    ensures AnsweredInTurn(session, calls, replies + [reply])
    ensures OpenAt(calls[..|replies| + 1]) == OpenAfter(OpenAt(calls[..|replies|]), calls[|replies|])
  {
    var i, more := |replies|, replies + [reply];
    assert calls[..i + 1][..i] == calls[..i] && more[..i] == replies;
    hide AnswerTo, OpenAfter, OpenAt, Acks;
    forall k | 0 <= k < |more| ensures more[k] == AnswerTo(session, OpenAt(calls[..k]), |Acks(more[..k])|, calls[k]) {
      assert k < i ==> more[..k] == replies[..k];
    }
    OpenNext(calls, i);
  }

  lemma OpenNext(calls: seq<Call>, i: nat)
    requires i < |calls|
    ensures OpenAt(calls[..i + 1]) == OpenAfter(OpenAt(calls[..i]), calls[i])
  {
    assert calls[..i + 1][..i] == calls[..i];
    hide OpenAfter;
  }

  /** One call of a history. A record becomes durable only by an append, one at a time. */
  method RunCall(log: Log, call: Call) returns (reply: Option<AppendReply>)
    requires log.Valid()
    modifies log
    ensures log.Valid() && old(log.ledger).kept <= log.ledger.kept
    ensures log.ledger.allAcked ==
              old(log.ledger).allAcked + (if reply.Some? && reply.value.Appended? then [reply.value.record] else [])
    ensures Unsettled(log) <= old(Unsettled(log)) + (if call.DoReopen? then 1 else 0)
    ensures AllFine(old(log.faults)) ==>
              && AllFine(log.faults) && log.Accepting() == OpenAfter(old(log.Accepting()), call)
              && reply == AnswerTo(log.session, old(log.Accepting()), |old(log.ledger).kept|, call)
              && |log.ledger.kept| - |log.ledger.allAcked| == |old(log.ledger).kept| - |old(log.ledger).allAcked|
  {
    reply := None;
    hide Subsequence, Holds, WellNumbered, Text;
    match call {
      case DoAppend(raw, wellFormed) =>
        var r := log.Append(raw, wellFormed);
        reply := Some(r);
      case DoClose => var _ := log.Close();
      case DoReopen => var _ := log.Reopen();
      case DoDie => log.Die();
    }
  }

  /** Log integrity over whole histories of appends, failures, crashes and reopenings: the
      terminated lines of the file are exactly the kept records, line k carrying number k,
      and every acknowledged record is among them, in order of acknowledgement. Each process
      that opened the log adds at most one record that was never acknowledged. */
  method RunCalls(
    session: string, calls: seq<Call>, faults: seq<Fault>) returns (log: Log, replies: seq<Option<AppendReply>>)
    ensures |replies| == |calls| && log.session == session
    ensures log.Valid() && log.ledger.allAcked == Acks(replies)
    ensures WellNumbered(log.ledger.kept, session) && Subsequence(Acks(replies), log.ledger.kept)
    ensures |log.ledger.kept| <= |Acks(replies)| + Openings(calls)
    ensures |Lines(log.content)| == |log.ledger.kept| && forall k :: 0 <= k < |log.ledger.kept| ==>
              Decode(Lines(log.content)[k]) == Some(log.ledger.kept[k])
    ensures AllFine(faults) ==> AnsweredInTurn(session, calls, replies) && log.ledger.kept == Acks(replies)
  {
    log := new Log(session, faults);
    replies := [];
    assert AnsweredInTurn(session, calls, replies) && !OpenAt(calls[..0]) && calls[..0] == [];
    hide Sound, Holds, Settled, Subsequence, WellNumbered, Lines, Decode, Text, AnsweredInTurn, OpenAt, AllFine;
    for i := 0 to |calls|
      invariant fresh(log) && log.Valid() && log.session == session && |replies| == i
      invariant log.ledger.allAcked == Acks(replies)
      invariant Unsettled(log) <= Openings(calls[..i])
      invariant AllFine(faults) ==>
                  && AllFine(log.faults) && AnsweredInTurn(session, calls, replies)
                  && log.Accepting() == OpenAt(calls[..i]) && |log.ledger.kept| == |Acks(replies)|
    {
      assert calls[..i + 1][..i] == calls[..i];
      var reply := RunCall(log, calls[i]);
      assert (replies + [reply])[..|replies|] == replies;
      if AllFine(faults) { AnswerNext(session, calls, replies, reply); }
      replies := replies + [reply];
    }
    assert calls[..|calls|] == calls;
    SoundMeans(log.ledger, session);
    SubsequenceLength(Acks(replies), log.ledger.kept);
    FileIsRecords(log.content, log.ledger.kept);
  }

  lemma SoundMeans(l: Ledger, session: string)
    requires Sound(l, session)
    ensures WellNumbered(l.kept, session) && Subsequence(l.allAcked, l.kept)
  {
    hide WellNumbered, Subsequence;
  }

  lemma FileIsRecords(content: string, kept: seq<Record>)
    requires Holds(content, kept)
    ensures |Lines(content)| == |kept| && forall k :: 0 <= k < |kept| ==> Decode(Lines(content)[k]) == Some(kept[k])
  {
    hide Lines, Decode, Text, Lacks;
    var tail := content[|Text(kept)|..];
    assert content == Text(kept) + tail;
    TextLines(kept, tail);
    forall k | 0 <= k < |kept| ensures Decode(Lines(content)[k]) == Some(kept[k]) {
      EncodeReadsBack(kept[k]);
    }
  }
}
