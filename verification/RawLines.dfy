/** The raw log as text: records on newline-terminated lines, and the scan that
    recovery makes of them. */
module RawLines {
  import opened Wrappers
  import opened EventRefs

  /** `Legacy` lines carry no sequence number; every line written now is a `Current`. */
  datatype Record = Legacy(payload: string) | Current(session: string, sequence: nat, payload: string)

  const NEWLINE := '\n'
  const SEPARATOR := ';'
  const ESCAPE := '\\'

  // ---- a newline-free encoding ----

  function EscapeChar(c: char): string {
    if c == NEWLINE then [ESCAPE, 'n'] else if c == SEPARATOR then [ESCAPE, 's']
        else if c == ESCAPE then [ESCAPE, ESCAPE] else [c]
  }

  function Escape(s: string): string {
    if s == [] then [] else EscapeChar(s[0]) + Escape(s[1..])
  }

  function Unescape(s: string): Option<string> {
    if s == [] then Some([])
    else if s[0] != ESCAPE then
      match Unescape(s[1..])
      case None => None
      case Some(rest) => Some([s[0]] + rest)
    else if |s| == 1 then None
    else
      var c := if s[1] == 'n' then NEWLINE else if s[1] == 's' then SEPARATOR else s[1];
      match Unescape(s[2..])
      case None => None
      case Some(rest) => Some([c] + rest)
  }

  function Encode(r: Record): string {
    match r
    case Legacy(payload) => "1" + Escape(payload)
    case Current(session, sequence, payload) =>
      "2" + (Escape(session) + [SEPARATOR] + (Decimal(sequence) + [SEPARATOR] + Escape(payload)))
  }

  /** The text before and after the first separator. */
  function Cut(s: string): Option<(string, string)> {
    match IndexOf(s, SEPARATOR)
    case None => None
    case Some(i) => IndexOfInRange(s, SEPARATOR); Some((s[..i], s[i + 1..]))
  }

  function Decode(line: string): Option<Record> {
    if line == "" then None
    else if line[0] == '1' then
      match Unescape(line[1..])
      case None => None
      case Some(payload) => Some(Legacy(payload))
    else if line[0] == '2' then DecodeCurrent(line[1..])
    else None
  }

  function DecodeCurrent(s: string): Option<Record> {
    match Cut(s)
    case None => None
    case Some((session, rest)) =>
      match Cut(rest)
      case None => None
      case Some((number, payload)) =>
        match (Unescape(session), DigitsValue(number), Unescape(payload))
        case (Some(a), Some(n), Some(b)) => Some(Current(a, n, b))
        case _ => None
  }

  ghost predicate Lacks(s: string, c: char) {
    forall i :: 0 <= i < |s| ==> s[i] != c
  }

  lemma {:induction false} EscapeReadsBack(s: string)
    ensures Unescape(Escape(s)) == Some(s) && Lacks(Escape(s), NEWLINE) && Lacks(Escape(s), SEPARATOR)
  {
    if s != [] {
      EscapeReadsBack(s[1..]);
      CharReadsBack(s[0], Escape(s[1..]), s[1..]);
      assert s == [s[0]] + s[1..];
      hide Unescape, EscapeChar;
    }
  }

  lemma CharReadsBack(c: char, text: string, rest: string)
    requires Unescape(text) == Some(rest)
    ensures Unescape(EscapeChar(c) + text) == Some([c] + rest)
    ensures Lacks(EscapeChar(c), NEWLINE) && Lacks(EscapeChar(c), SEPARATOR)
  {
    var e := EscapeChar(c);
    assert (e + text)[|e|..] == text;
  }

  lemma {:induction false} CutAtFirst(a: string, b: string)
    requires Lacks(a, SEPARATOR)
    ensures Cut(a + [SEPARATOR] + b) == Some((a, b))
  {
    FirstIndex(a, b);
    var s := a + [SEPARATOR] + b;
    assert s[..|a|] == a && s[|a| + 1..] == b;
  }

  lemma {:induction false} FirstIndex(a: string, b: string)
    requires Lacks(a, SEPARATOR)
    ensures IndexOf(a + [SEPARATOR] + b, SEPARATOR) == Some(|a|)
  {
    if a != [] {
      FirstIndex(a[1..], b);
      assert (a + [SEPARATOR] + b)[1..] == a[1..] + [SEPARATOR] + b;
    }
  }

  /** Every record reads back from its line, and no line contains a newline. */
  lemma EncodeReadsBack(r: Record)
    ensures Decode(Encode(r)) == Some(r) && Lacks(Encode(r), NEWLINE) && Encode(r) != ""
  {
    EscapeReadsBack(r.payload);
    if r.Current? {
      CurrentReadsBack(r);
      hide Escape, Decimal, DecodeCurrent;
      var body := Escape(r.session) + [SEPARATOR] + (Decimal(r.sequence) + [SEPARATOR] + Escape(r.payload));
      assert ("2" + body)[1..] == body;
    } else {
      hide Escape, Unescape;
      assert ("1" + Escape(r.payload))[1..] == Escape(r.payload);
    }
  }

  lemma CurrentReadsBack(r: Record)
    requires r.Current?
    ensures var body := Escape(r.session) + [SEPARATOR] + (Decimal(r.sequence) + [SEPARATOR] + Escape(r.payload));
      DecodeCurrent(body) == Some(r) && Lacks(body, NEWLINE)
  {
    EscapeReadsBack(r.payload);
    EscapeReadsBack(r.session);
    DecimalReadsBack(r.sequence);
    var number := Decimal(r.sequence);
    CutAtFirst(Escape(r.session), number + [SEPARATOR] + Escape(r.payload));
    CutAtFirst(number, Escape(r.payload));
    hide Escape, Unescape, Decimal, DigitsValue, Cut;
    assert Escape(r.session) + [SEPARATOR] + (number + [SEPARATOR] + Escape(r.payload)) ==
             (Escape(r.session) + [SEPARATOR]) + (number + [SEPARATOR] + Escape(r.payload));
  }

  // ---- the file ----

  function Line(r: Record): string {
    Encode(r) + [NEWLINE]
  }

  function Text(records: seq<Record>): string {
    if records == [] then "" else Line(records[0]) + Text(records[1..])
  }

  /** The record on a committed line: a legacy one, or one carrying its line number. */
  predicate Validate(line: string, session: string, n: nat) {
    match Decode(line)
    case None => false
    case Some(Legacy(_)) => true
    case Some(Current(s, sequence, _)) => s == session && sequence == n
  }

  /** The line is a record that belongs at this place of the session's file. */
  predicate SoundLine(line: string, session: string, n: nat) {
    line != "" && Validate(line, session, n)
  }

  /** A line belongs at a place just when it decodes to a record without a number, or to one of
      the session with that number. */
  lemma BelongsWhen(line: string, session: string, n: nat)
    ensures SoundLine(line, session, n) <==>
      line != "" && Decode(line).Some? &&
      (Decode(line).value.Legacy? || (Decode(line).value.session == session && Decode(line).value.sequence == n))
  {
    hide Decode;
  }

  /** So are all the lines, from place `n + 1` on. */
  ghost predicate SoundLines(lines: seq<string>, session: string, n: nat) {
    forall k :: 0 <= k < |lines| ==> SoundLine(lines[k], session, n + k + 1)
  }

  ghost predicate WellNumbered(records: seq<Record>, session: string) {
    forall i :: 0 <= i < |records| ==>
        records[i].Legacy? || (records[i].session == session && records[i].sequence == i + 1)
  }

  /** Recovery's scan: the number of committed lines, or nothing when one is unsound. An
      unterminated tail is ignored. */
  function Scan(data: string, session: string, n: nat): Option<nat>
    decreases |data|
  {
    match IndexOf(data, NEWLINE)
    case None => Some(n)
    case Some(i) =>
      IndexOfInRange(data, NEWLINE);
      if i == 0 || !Validate(data[..i], session, n + 1) then None
      else Scan(data[i + 1..], session, n + 1)
  }

  /** The newline-terminated lines, without their terminators. */
  function Lines(data: string): seq<string>
    decreases |data|
  {
    match IndexOf(data, NEWLINE)
    case None => []
    case Some(i) => IndexOfInRange(data, NEWLINE); [data[..i]] + Lines(data[i + 1..])
  }

  /** Length of the part up to and including the last newline. */
  function CommittedLength(data: string): nat {
    if data == "" then 0 else if data[|data| - 1] == NEWLINE then |data| else CommittedLength(data[..|data| - 1])
  }

  /** The scan accepts exactly the files whose every terminated line is sound in its
      place, and counts them. */
  lemma {:induction false} ScanAccepts(data: string, session: string, n: nat)
    ensures Scan(data, session, n).Some? <==> SoundLines(Lines(data), session, n)
    ensures Scan(data, session, n).Some? ==> Scan(data, session, n) == Some(n + |Lines(data)|)
    decreases |data|
  {
    IndexOfInRange(data, NEWLINE);
    hide Validate;
    var at := IndexOf(data, NEWLINE);
    if at.Some? {
      var i, rest := at.value, Lines(data[at.value + 1..]);
      ScanAccepts(data[i + 1..], session, n + 1);
      assert Lines(data) == [data[..i]] + rest;
      assert Scan(data, session, n) == if i == 0 || !Validate(data[..i], session, n + 1) then None
               else Scan(data[i + 1..], session, n + 1);
      hide Scan, Lines, IndexOf, SoundLines;
      FirstAndRest(data[..i], rest, session, n);
    }
  }

  lemma FirstAndRest(first: string, rest: seq<string>, session: string, n: nat)
    ensures SoundLines([first] + rest, session, n) <==>
              SoundLine(first, session, n + 1) && SoundLines(rest, session, n + 1)
  {
    hide SoundLine;
    var all := [first] + rest;
    if SoundLines(all, session, n) {
      assert all[0] == first;
      forall k | 0 <= k < |rest| ensures SoundLine(rest[k], session, n + 1 + k + 1) {
        assert all[k + 1] == rest[k];
      }
    }
    if SoundLine(first, session, n + 1) && SoundLines(rest, session, n + 1) {
      forall k | 0 < k < |all| ensures SoundLine(all[k], session, n + k + 1) {
        assert all[k] == rest[k - 1];
        assert SoundLine(rest[k - 1], session, n + 1 + (k - 1) + 1);
      }
    }
  }

  lemma {:induction false} TextAppend(records: seq<Record>, r: Record)
    ensures Text(records + [r]) == Text(records) + Line(r)
  {
    hide Encode;
    if records == [] {
      assert [r][1..] == [];
      assert records + [r] == [r];
    } else {
      TextAppend(records[1..], r);
      assert (records + [r])[1..] == records[1..] + [r];
    }
  }

  lemma {:induction false} NewlineAt(line: string, rest: string)
    requires Lacks(line, NEWLINE)
    ensures IndexOf(line + [NEWLINE] + rest, NEWLINE) == Some(|line|)
  {
    if line != [] {
      NewlineAt(line[1..], rest);
      assert (line + [NEWLINE] + rest)[1..] == line[1..] + [NEWLINE] + rest;
    }
  }

  lemma {:induction false} NoNewlineFound(s: string)
    requires Lacks(s, NEWLINE)
    ensures IndexOf(s, NEWLINE) == None && CommittedLength(s) == 0
  {
    if s != [] {
      NoNewlineFound(s[1..]);
      CommittedNothing(s);
    }
  }

  lemma {:induction false} CommittedNothing(s: string)
    requires Lacks(s, NEWLINE)
    ensures CommittedLength(s) == 0
  {
    if s != [] {
      CommittedNothing(s[..|s| - 1]);
    }
  }

  lemma FirstLine(line: string, rest: string)
    requires Lacks(line, NEWLINE)
    ensures Lines(line + [NEWLINE] + rest) == [line] + Lines(rest)
  {
    var data := line + [NEWLINE] + rest;
    NewlineAt(line, rest);
    assert data[..|line|] == line && data[|line| + 1..] == rest;
    hide IndexOf;
  }

  /** The terminated lines of the log's text are the lines of its records. */
  lemma {:induction false} TextLines(records: seq<Record>, tail: string)
    requires Lacks(tail, NEWLINE)
    ensures |Lines(Text(records) + tail)| == |records|
    ensures forall k :: 0 <= k < |records| ==> Lines(Text(records) + tail)[k] == Encode(records[k])
  {
    hide Encode;
    hide Decode;
    if records == [] {
      NoNewlineFound(tail);
      assert Text(records) + tail == tail;
    } else {
      var line, rest := Encode(records[0]), Text(records[1..]) + tail;
      EncodeReadsBack(records[0]);
      TextLines(records[1..], tail);
      FirstLine(line, rest);
      assert Text(records) + tail == line + [NEWLINE] + rest;
      hide Lines;
    }
  }

  lemma EncodedIsValid(records: seq<Record>, session: string, k: nat)
    requires WellNumbered(records, session) && k < |records|
    ensures SoundLine(Encode(records[k]), session, k + 1)
  {
    EncodeReadsBack(records[k]);
    hide Encode, Decode;
  }

  /** On a sound log, whatever unterminated text follows it, recovery counts the records. */
  lemma ScanCounts(records: seq<Record>, tail: string, session: string)
    requires WellNumbered(records, session) && Lacks(tail, NEWLINE)
    ensures Scan(Text(records) + tail, session, 0) == Some(|records|)
  {
    hide Encode, Text, Scan, Lines, SoundLine, WellNumbered;
    var data := Text(records) + tail;
    TextLines(records, tail);
    assert SoundLines(Lines(data), session, 0) by {
      forall k | 0 <= k < |records| ensures SoundLine(Encode(records[k]), session, k + 1) {
        EncodedIsValid(records, session, k);
      }
    }
    ScanAccepts(data, session, 0);
  }

  lemma {:induction false} CommittedOfAppend(a: string, tail: string)
    requires Lacks(tail, NEWLINE)
    ensures CommittedLength(a + tail) == CommittedLength(a)
  {
    var s := a + tail;
    if tail == [] {
      assert s == a;
    } else {
      CommittedOfAppend(a, tail[..|tail| - 1]);
      assert s[..|s| - 1] == a + tail[..|tail| - 1];
    }
  }

  lemma {:induction false} TextEndsTerminated(records: seq<Record>)
    ensures records != [] ==> Text(records) != "" && Text(records)[|Text(records)| - 1] == NEWLINE
  {
    hide Encode;
    if |records| > 1 {
      TextEndsTerminated(records[1..]);
    } else if |records| == 1 {
      assert Text(records[1..]) == "";
    }
  }

  /** Cutting the file at its last newline leaves the log's text. */
  lemma CommittedIsText(records: seq<Record>, tail: string)
    requires Lacks(tail, NEWLINE)
    ensures CommittedLength(Text(records) + tail) == |Text(records)|
  {
    CommittedOfAppend(Text(records), tail);
    TextEndsTerminated(records);
  }
}
