/** Phase labels, phase intervals and what it means for a stream of intervals to
    be an official phase stream. The engine, the editor and the metrics share
    these definitions. */
module Phases {
  import opened Wrappers

  /** A phase label. `Other` stands for every string that is not one of the three
      official labels, the empty string included. */
  datatype Phase = Laning | Midgame | Decisive | Other(text: string)

  const NO_LABEL := Other("")
  const ENDED := Other("ended")

  predicate Official(p: Phase) {
    !p.Other?
  }

  datatype PhaseInterval = PhaseInterval(start: int, end: int, phase: Phase, roundIndex: int, eventRef: string)

  type Stream = seq<PhaseInterval>

  predicate Covers(iv: PhaseInterval, t: int) {
    iv.start <= t < iv.end
  }

  /** Positive widths, no gap, no overlap, from `lo` up to `hi`. */
  ghost predicate Tiling(s: Stream, lo: int, hi: int) {
    && |s| > 0
    && s[0].start == lo
    && s[|s| - 1].end == hi
    && (forall i :: 0 <= i < |s| ==> s[i].start < s[i].end)
    && (forall i :: 0 < i < |s| ==> s[i - 1].end == s[i].start)
  }

  ghost predicate AllOfficial(s: Stream) {
    forall i :: 0 <= i < |s| ==> Official(s[i].phase)
  }

  /** Laning occupies one contiguous block: once left, it is never entered again. */
  ghost predicate NoLaningReentry(s: Stream) {
    forall i, j, k :: 0 <= i < j < k < |s| && s[i].phase == Laning && s[k].phase == Laning ==> s[j].phase == Laning
  }

  ghost predicate ValidStream(s: Stream, eligible: int) {
    Tiling(s, 0, eligible) && AllOfficial(s) && NoLaningReentry(s)
  }

  /** The label of second `t`: that of the first interval covering it. */
  function LabelAt(s: Stream, t: int): Option<Phase> {
    if s == [] then None
    else
      var n := |s| - 1;
      var earlier := LabelAt(s[..n], t);
      if earlier.Some? then earlier else if Covers(s[n], t) then Some(s[n].phase) else None
  }

  lemma {:induction false} TilingOrdered(s: Stream, lo: int, hi: int)
    requires Tiling(s, lo, hi)
    ensures forall i, j :: 0 <= i < j < |s| ==> s[i].end <= s[j].start
    ensures forall i :: 0 <= i < |s| ==> lo <= s[i].start < s[i].end <= hi
  {
    if |s| == 1 {
    } else {
      var n := |s| - 1;
      TilingOrdered(s[..n], lo, s[n - 1].end);
    }
  }

  lemma {:induction false} LabelAtIndex(s: Stream, lo: int, hi: int, i: nat, t: int)
    requires Tiling(s, lo, hi) && i < |s| && Covers(s[i], t)
    ensures LabelAt(s, t) == Some(s[i].phase)
  {
    TilingOrdered(s, lo, hi);
    LabelAtFirst(s, i, t);
  }

  lemma {:induction false} LabelAtFirst(s: Stream, i: nat, t: int)
    requires i < |s| && Covers(s[i], t)
    requires forall j :: 0 <= j < i ==> !Covers(s[j], t)
    ensures LabelAt(s, t) == Some(s[i].phase)
  {
    var n := |s| - 1;
    if i < n {
      LabelAtFirst(s[..n], i, t);
    } else {
      LabelAtNowhere(s[..n], t);
    }
  }

  lemma {:induction false} LabelAtNowhere(s: Stream, t: int)
    requires forall j :: 0 <= j < |s| ==> !Covers(s[j], t)
    ensures LabelAt(s, t) == None
  {
    if s != [] {
      LabelAtNowhere(s[..|s| - 1], t);
    }
  }

  /** A tiling gives every second of its range a label, and no other second. */
  lemma {:induction false} LabelDefined(s: Stream, lo: int, hi: int, t: int)
    requires Tiling(s, lo, hi)
    ensures LabelAt(s, t).Some? <==> lo <= t < hi
  {
    if lo <= t < hi {
      var i := Locate(s, lo, hi, t);
      LabelAtIndex(s, lo, hi, i, t);
    } else {
      TilingOrdered(s, lo, hi);
      LabelAtNowhere(s, t);
    }
  }

  lemma {:induction false} Locate(s: Stream, lo: int, hi: int, t: int) returns (i: nat)
    requires Tiling(s, lo, hi) && lo <= t < hi
    ensures i < |s| && Covers(s[i], t)
  {
    var n := |s| - 1;
    if t >= s[n].start {
      i := n;
    } else {
      i := Locate(s[..n], lo, s[n].start, t);
    }
  }

  lemma LabelAtAppend(s: Stream, iv: PhaseInterval, t: int)
    ensures LabelAt(s + [iv], t) ==
      if LabelAt(s, t).Some? then LabelAt(s, t) else if Covers(iv, t) then Some(iv.phase) else None
  {
    assert (s + [iv])[..|s|] == s;
  }
}
