/** Replacing a run of consecutive intervals by others over the same range: the one
    shape that every editing operation has. */
module Splicing {
  import opened Wrappers
  import opened Phases

  function Splice(s: Stream, i: nat, j: nat, mid: Stream): Stream
    requires i <= j <= |s|
  {
    s[..i] + mid + s[j..]
  }

  lemma TilingJoin(a: Stream, b: Stream, lo: int, at: int, hi: int)
    requires Tiling(a, lo, at) && Tiling(b, at, hi)
    ensures Tiling(a + b, lo, hi)
  {
    var s := a + b;
    forall i | 0 < i < |s| ensures s[i - 1].end == s[i].start {
      if i < |a| { assert s[i - 1] == a[i - 1]; } else if i > |a| { assert s[i - 1] == b[i - 1 - |a|]; }
    }
  }

  lemma TilingPart(s: Stream, lo: int, hi: int, i: nat, j: nat)
    requires Tiling(s, lo, hi) && i < j <= |s|
    ensures Tiling(s[i..j], s[i].start, s[j - 1].end)
  {
    var part := s[i..j];
    forall k | 0 < k < |part| ensures part[k - 1].end == part[k].start {
      assert part[k - 1] == s[i + k - 1] && part[k] == s[i + k];
    }
  }

  /** A replacement that tiles the replaced range leaves a tiling. */
  lemma SpliceTiles(s: Stream, lo: int, hi: int, i: nat, j: nat, mid: Stream)
    requires Tiling(s, lo, hi) && i < j <= |s| && Tiling(mid, s[i].start, s[j - 1].end)
    ensures Tiling(Splice(s, i, j, mid), lo, hi)
  {
    var head := mid;
    if i > 0 {
      TilingPart(s, lo, hi, 0, i);
      assert s[0..i] == s[..i];
      TilingJoin(s[..i], mid, lo, s[i].start, s[j - 1].end);
      head := s[..i] + mid;
    } else {
      assert s[..i] + mid == mid;
    }
    if j < |s| {
      TilingPart(s, lo, hi, j, |s|);
      assert s[j..|s|] == s[j..];
      TilingJoin(head, s[j..], lo, s[j].start, hi);
    } else {
      assert head + s[j..] == head;
    }
  }

  lemma {:induction false} LabelAtConcat(a: Stream, b: Stream, t: int)
    ensures LabelAt(a + b, t) == if LabelAt(a, t).Some? then LabelAt(a, t) else LabelAt(b, t)
  {
    if b == [] {
      assert a + b == a;
    } else {
      var n := |b| - 1;
      LabelAtConcat(a, b[..n], t);
      assert a + b == (a + b[..n]) + [b[n]] && b == b[..n] + [b[n]];
      LabelAtAppend(a + b[..n], b[n], t);
      LabelAtAppend(b[..n], b[n], t);
    }
  }

  function FirstOf(a: Option<Phase>, b: Option<Phase>): Option<Phase> {
    if a.Some? then a else b
  }

  lemma LabelAtThree(a: Stream, b: Stream, c: Stream, t: int)
    ensures LabelAt(a + b + c, t) == FirstOf(FirstOf(LabelAt(a, t), LabelAt(b, t)), LabelAt(c, t))
  {
    LabelAtConcat(a, b, t);
    LabelAtConcat(a + b, c, t);
  }

  /** No second of a range has a label from the intervals before the range. */
  lemma HeadIsEarlier(s: Stream, lo: int, hi: int, i: nat, t: int)
    requires Tiling(s, lo, hi) && i < |s| && t >= s[i].start
    ensures LabelAt(s[..i], t) == None
  {
    if i > 0 {
      TilingPart(s, lo, hi, 0, i);
      assert s[0..i] == s[..i];
      LabelDefined(s[..i], lo, s[i].start, t);
    }
  }

  /** Outside the replaced range every second keeps its label. */
  lemma SpliceLabel(s: Stream, lo: int, hi: int, i: nat, j: nat, mid: Stream, t: int)
    requires Tiling(s, lo, hi) && i < j <= |s| && Tiling(mid, s[i].start, s[j - 1].end)
    ensures LabelAt(Splice(s, i, j, mid), t) == if s[i].start <= t < s[j - 1].end then LabelAt(mid, t)
              else LabelAt(s, t)
  {
    var from, to := s[i].start, s[j - 1].end;
    TilingPart(s, lo, hi, i, j);
    if t >= from { HeadIsEarlier(s, lo, hi, i, t); }
    assert s[..i] + s[i..j] + s[j..] == s;
    hide Tiling;
    hide LabelAt;
    LabelDefined(s[i..j], from, to, t);
    LabelDefined(mid, from, to, t);
    LabelAtThree(s[..i], s[i..j], s[j..], t);
    LabelAtThree(s[..i], mid, s[j..], t);
  }

  lemma SpliceOfficial(s: Stream, i: nat, j: nat, mid: Stream)
    requires AllOfficial(s) && i < j <= |s| && AllOfficial(mid)
    ensures AllOfficial(Splice(s, i, j, mid))
  {
  }

  /** `f` finds for every interval of `t` one of `s` with the same label, in order. */
  ghost predicate Relabels(s: Stream, t: Stream, f: seq<nat>) {
    && |f| == |t|
    && (forall m :: 0 <= m < |f| ==> f[m] < |s| && t[m].phase == s[f[m]].phase)
    && (forall m, n :: 0 <= m < n < |f| ==> f[m] <= f[n])
  }

  lemma NoReentryVia(s: Stream, t: Stream, f: seq<nat>)
    requires NoLaningReentry(s) && Relabels(s, t, f)
    ensures NoLaningReentry(t)
  {
    forall i, j, k | 0 <= i < j < k < |t| && t[i].phase == Laning && t[k].phase == Laning
      ensures t[j].phase == Laning
    {
      assert f[i] <= f[j] <= f[k];
      assert s[f[i]].phase == Laning && s[f[k]].phase == Laning;
    }
  }

  /** A replacement that repeats labels of the replaced run in order cannot re-enter. */
  lemma SpliceNoReentry(s: Stream, i: nat, j: nat, mid: Stream, g: seq<nat>)
    requires NoLaningReentry(s) && i < j <= |s|
    requires Relabels(s, mid, g) && forall m :: 0 <= m < |g| ==> i <= g[m] < j
    ensures NoLaningReentry(Splice(s, i, j, mid))
  {
    var t := Splice(s, i, j, mid);
    var f := seq(|t|, m requires 0 <= m < |t| => if m < i then m else if m < i + |mid| then g[m - i]
          else m - |mid| - i + j);
    NoReentryVia(s, t, f);
  }
}
