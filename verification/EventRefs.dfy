/** Textual references to phase intervals: how they are written and read back. */
module EventRefs {
  import opened Wrappers
  import opened Phases

  /** The largest value of the program's 64-bit integers. */
  const MAX_INT := 0x7FFF_FFFF_FFFF_FFFF

  const PREFIX := "interval@"

  predicate IsDigit(c: char) {
    '0' <= c <= '9'
  }

  /** White space as the program's string trimming understands it. */
  predicate IsSpace(c: char) {
    || '\t' <= c <= '\r' || c == ' ' || c == '\U{85}' || c == '\U{A0}' || c == '\U{1680}'
    || '\U{2000}' <= c <= '\U{200A}' || c == '\U{2028}' || c == '\U{2029}' || c == '\U{202F}'
    || c == '\U{205F}' || c == '\U{3000}'
  }

  function TrimLeft(s: string): string {
    if s != [] && IsSpace(s[0]) then TrimLeft(s[1..]) else s
  }

  function TrimRight(s: string): string {
    if s != [] && IsSpace(s[|s| - 1]) then TrimRight(s[..|s| - 1]) else s
  }

  function TrimSpace(s: string): string {
    TrimRight(TrimLeft(s))
  }

  function TrimPrefix(s: string, prefix: string): string {
    if prefix <= s then s[|prefix|..] else s
  }

  function IndexOf(s: string, c: char): Option<nat> {
    if s == [] then None
    else if s[0] == c then Some(0)
    else
      match IndexOf(s[1..], c)
      case None => None
      case Some(i) => Some(i + 1)
  }

  function Digit(d: nat): char
    requires d < 10
  {
    ('0' as int + d) as char
  }

  function Decimal(n: nat): string {
    if n < 10 then [Digit(n)] else Decimal(n / 10) + [Digit(n % 10)]
  }

  function Itoa(n: int): string {
    if n < 0 then "-" + Decimal(-n) else Decimal(n)
  }

  /** The value of a non-empty run of digits. */
  function DigitsValue(s: string): Option<nat> {
    if s == [] then None
    else
      var n := |s| - 1;
      if !IsDigit(s[n]) then None
      else if n == 0 then Some(s[0] as int - '0' as int)
      else
        match DigitsValue(s[..n])
        case None => None
        case Some(v) => Some(10 * v + (s[n] as int - '0' as int))
  }

  /** One optional sign, then digits, within 64 bits. */
  function Atoi(s: string): Option<int> {
    var negative := s != [] && s[0] == '-';
    var signed := s != [] && (s[0] == '-' || s[0] == '+');
    match DigitsValue(if signed then s[1..] else s)
    case None => None
    case Some(v) =>
      var value := if negative then -(v as int) else v as int;
      if -MAX_INT - 1 <= value <= MAX_INT then Some(value) else None
  }

  datatype Ref = Closed(start: int, end: int) | OpenEnd(start: int)

  function ParseEventRef(ref: string): Option<Ref> {
    ParseBounds(TrimPrefix(TrimSpace(ref), PREFIX))
  }

  function ParseBounds(s: string): Option<Ref> {
    match IndexOf(s, '-')
    case Some(i) =>
      IndexOfInRange(s, '-');
      (match (Atoi(TrimSpace(s[..i])), Atoi(TrimSpace(s[i + 1..])))
       case (Some(start), Some(end)) => if start >= 0 && end > start then Some(Closed(start, end)) else None
       case _ => None)
    case None =>
      match Atoi(s)
      case Some(start) => Some(OpenEnd(start))
      case None => None
  }

  function BoundsRef(start: int, end: int): string {
    PREFIX + Itoa(start) + "-" + Itoa(end)
  }

  function CanonicalEventRef(iv: PhaseInterval): string {
    BoundsRef(iv.start, iv.end)
  }

  function WithRef(iv: PhaseInterval): PhaseInterval {
    iv.(eventRef := CanonicalEventRef(iv))
  }

  // ---- reading back what was written ----

  lemma {:induction false} IndexOfInRange(s: string, c: char)
    ensures var i := IndexOf(s, c); i.Some? ==> i.value < |s| && s[i.value] == c
  {
    if s != [] && s[0] != c {
      IndexOfInRange(s[1..], c);
    }
  }

  lemma {:induction false} DecimalReadsBack(n: nat)
    ensures DigitsValue(Decimal(n)) == Some(n)
    ensures Decimal(n) != [] && forall i :: 0 <= i < |Decimal(n)| ==> IsDigit(Decimal(n)[i])
  {
    if n >= 10 {
      DecimalReadsBack(n / 10);
      var s := Decimal(n);
      assert s[..|s| - 1] == Decimal(n / 10);
    }
  }

  lemma {:induction false} NoSpaceNoTrim(s: string)
    requires s != [] ==> !IsSpace(s[0]) && !IsSpace(s[|s| - 1])
    ensures TrimSpace(s) == s
  {
  }

  lemma {:induction false} IndexAfterDigits(digits: string, rest: string)
    requires forall i :: 0 <= i < |digits| ==> IsDigit(digits[i])
    ensures IndexOf(digits + "-" + rest, '-') == Some(|digits|)
  {
    var s := digits + "-" + rest;
    if digits != [] {
      IndexAfterDigits(digits[1..], rest);
      assert s[1..] == digits[1..] + "-" + rest;
    }
  }

  lemma AtoiReadsBack(n: nat)
    requires n <= MAX_INT
    ensures Atoi(Itoa(n)) == Some(n) && TrimSpace(Itoa(n)) == Itoa(n)
    ensures Itoa(n) != [] && forall i :: 0 <= i < |Itoa(n)| ==> IsDigit(Itoa(n)[i])
  {
    DecimalReadsBack(n);
    assert IsDigit(Itoa(n)[0]) && IsDigit(Itoa(n)[|Itoa(n)| - 1]);
    NoSpaceNoTrim(Itoa(n));
  }

  lemma BoundsReadBack(start: int, end: int)
    requires 0 <= start <= MAX_INT && 0 <= end <= MAX_INT
    ensures ParseBounds(Itoa(start) + "-" + Itoa(end)) == if start < end then Some(Closed(start, end)) else None
  {
    AtoiReadsBack(start);
    AtoiReadsBack(end);
    var a, b := Itoa(start), Itoa(end);
    var body := a + "-" + b;
    IndexAfterDigits(a, b);
    hide Atoi;
    hide Itoa;
    hide TrimSpace;
    hide IndexOf;
    assert body[..|a|] == a && body[|a| + 1..] == b;
  }

  lemma PrefixComesOff(prefix: string, body: string)
    ensures TrimPrefix(prefix + body, prefix) == body
  {
    assert (prefix + body)[|prefix|..] == body;
  }

  lemma UntrimmedBetween(prefix: string, body: string)
    requires prefix != [] && body != [] && !IsSpace(prefix[0]) && !IsSpace(body[|body| - 1])
    ensures TrimSpace(prefix + body) == prefix + body
  {
    NoSpaceNoTrim(prefix + body);
  }

  /** Every reference the program writes reads back as the bounds it was written for. */
  lemma RefRoundTrip(start: int, end: int)
    requires 0 <= start < end <= MAX_INT
    ensures ParseEventRef(BoundsRef(start, end)) == Some(Closed(start, end))
  {
    BoundsRead(start, end);
    hide *;
  }

  /** Bounds that enclose nothing are no reference. */
  lemma BoundsRead(start: int, end: int)
    requires 0 <= start <= MAX_INT && 0 <= end <= MAX_INT
    ensures ParseEventRef(BoundsRef(start, end)) == if start < end then Some(Closed(start, end)) else None
  {
    var last, body := Itoa(end), Itoa(start) + "-" + Itoa(end);
    BoundsReadBack(start, end);
    AtoiReadsBack(end);
    assert body[|body| - 1] == last[|last| - 1] && IsDigit(last[|last| - 1]);
    hide Itoa;
    hide ParseBounds;
    assert BoundsRef(start, end) == PREFIX + body;
    UntrimmedBetween(PREFIX, body);
    PrefixComesOff(PREFIX, body);
    hide TrimSpace;
    hide TrimPrefix;
  }

  lemma {:induction false} NoIndex(s: string, c: char)
    requires forall i :: 0 <= i < |s| ==> s[i] != c
    ensures IndexOf(s, c) == None
  {
    if s != [] { NoIndex(s[1..], c); }
  }

  /** The prefix may be left out, and so may the end: a start alone is an open reference. */
  lemma ShortRefsRead(start: int, end: int)
    requires 0 <= start < end <= MAX_INT
    ensures ParseEventRef(Itoa(start) + "-" + Itoa(end)) == Some(Closed(start, end))
    ensures ParseEventRef(PREFIX + Itoa(start)) == ParseEventRef(Itoa(start)) == Some(OpenEnd(start))
  {
    BareBoundsRead(start, end);
    OpenRefReads(start);
    hide *;
  }

  lemma BareBoundsRead(start: int, end: int)
    requires 0 <= start < end <= MAX_INT
    ensures ParseEventRef(Itoa(start) + "-" + Itoa(end)) == Some(Closed(start, end))
  {
    BoundsReadBack(start, end);
    AtoiReadsBack(start);
    AtoiReadsBack(end);
    hide Itoa, ParseBounds;
    var a, b := Itoa(start), Itoa(end);
    var body := a + "-" + b;
    assert body[0] == a[0] && IsDigit(a[0]) && body[|body| - 1] == b[|b| - 1] && IsDigit(b[|b| - 1]);
    NoSpaceNoTrim(body);
    hide TrimSpace;
    assert !(PREFIX <= body);
  }

  lemma OpenRefReads(start: int)
    requires 0 <= start <= MAX_INT
    ensures ParseEventRef(PREFIX + Itoa(start)) == ParseEventRef(Itoa(start)) == Some(OpenEnd(start))
  {
    AtoiReadsBack(start);
    hide Itoa, Atoi;
    var a := Itoa(start);
    assert IsDigit(a[0]) && IsDigit(a[|a| - 1]);
    NoIndex(a, '-');
    UntrimmedBetween(PREFIX, a);
    PrefixComesOff(PREFIX, a);
    hide TrimSpace, IndexOf;
    assert !(PREFIX <= a);
  }
}
