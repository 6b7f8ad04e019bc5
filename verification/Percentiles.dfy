/** Empirical mid-rank percentiles of a cohort. */
module Percentiles {
  import opened Wrappers

  function Below(xs: seq<real>, v: real): nat {
    if xs == [] then 0 else Below(xs[..|xs| - 1], v) + (if xs[|xs| - 1] < v then 1 else 0)
  }

  function Equal(xs: seq<real>, v: real): nat {
    if xs == [] then 0 else Equal(xs[..|xs| - 1], v) + (if xs[|xs| - 1] == v then 1 else 0)
  }

  /** Twice the mid-rank, less one: members below count double, ties once. */
  function Weight(xs: seq<real>, v: real): nat {
    2 * Below(xs, v) + Equal(xs, v)
  }

  function Percentile(v: real, cohort: seq<real>): (p: real)
    requires cohort != []
  {
    50.0 * Weight(cohort, v) as real / |cohort| as real
  }

  function Invert(p: real): real {
    100.0 - p
  }

  // ---- the program ----

  function InsertReal(s: seq<real>, x: real): seq<real> {
    if s == [] || s[|s| - 1] <= x then s + [x] else InsertReal(s[..|s| - 1], x) + [s[|s| - 1]]
  }

  function SortReals(s: seq<real>): seq<real> {
    if s == [] then [] else InsertReal(SortReals(s[..|s| - 1]), s[|s| - 1])
  }

  /** An empty cohort has no percentile. */
  method MidRankPercentile(v: real, cohort: seq<real>) returns (p: Option<real>)
    ensures p == if cohort == [] then None else Some(Percentile(v, cohort))
  {
    if |cohort| == 0 {
      return None;
    }
    var xs := SortReals(cohort);
    SortPermutes(cohort);
    hide SortReals, Percentile;
    var below, eq := 0, 0;
    for i := 0 to |xs|
      invariant below == Below(xs[..i], v) && eq == Equal(xs[..i], v)
    {
      assert xs[..i + 1][..i] == xs[..i];
      if xs[i] < v {
        below := below + 1;
      } else if xs[i] == v {
        eq := eq + 1;
      }
    }
    assert xs[..|xs|] == xs;
    var midrank := below as real + (eq + 1) as real / 2.0;
    MidRankForm(v, cohort, xs, midrank);
    p := Some(100.0 * (midrank - 0.5) / |xs| as real);
  }

  lemma MidRankForm(v: real, cohort: seq<real>, xs: seq<real>, midrank: real)
    requires cohort != [] && multiset(xs) == multiset(cohort)
    requires midrank == Below(xs, v) as real + (Equal(xs, v) + 1) as real / 2.0
    ensures |xs| == |cohort| && 100.0 * (midrank - 0.5) / |xs| as real == Percentile(v, cohort)
  {
    CountsAgree(xs, cohort, v);
    assert |multiset(xs)| == |xs| && |multiset(cohort)| == |cohort|;
    assert 100.0 * (midrank - 0.5) == 50.0 * Weight(cohort, v) as real;
  }

  // ---- what the number says ----

  ghost function Lower(cohort: seq<real>, v: real): set<int> {
    set i | 0 <= i < |cohort| && cohort[i] < v
  }

  ghost function Tied(cohort: seq<real>, v: real): set<int> {
    set i | 0 <= i < |cohort| && cohort[i] == v
  }

  lemma {:induction false} CountsAreMembers(cohort: seq<real>, v: real)
    ensures Below(cohort, v) == |Lower(cohort, v)| && Equal(cohort, v) == |Tied(cohort, v)|
  {
    if cohort != [] {
      var n := |cohort| - 1;
      CountsAreMembers(cohort[..n], v);
      assert Lower(cohort, v) == Lower(cohort[..n], v) + (if cohort[n] < v then {n} else {});
      assert Tied(cohort, v) == Tied(cohort[..n], v) + (if cohort[n] == v then {n} else {});
    }
  }

  /** The share, in percent, of members that lie lower, ties counting half. */
  lemma PercentileIsShare(v: real, cohort: seq<real>)
    requires cohort != []
    ensures Percentile(v, cohort) * |cohort| as real ==
              100.0 * (|Lower(cohort, v)| as real + |Tied(cohort, v)| as real / 2.0)
  {
    CountsAreMembers(cohort, v);
    hide Below, Equal, Lower, Tied;
  }

  // ---- laws ----

  lemma {:induction false} InsertPermutes(s: seq<real>, x: real)
    ensures multiset(InsertReal(s, x)) == multiset(s) + multiset{x}
  {
    if s != [] && s[|s| - 1] > x {
      InsertPermutes(s[..|s| - 1], x);
      assert s == s[..|s| - 1] + [s[|s| - 1]];
    }
  }

  lemma {:induction false} SortPermutes(s: seq<real>)
    ensures multiset(SortReals(s)) == multiset(s)
  {
    if s != [] {
      SortPermutes(s[..|s| - 1]);
      InsertPermutes(SortReals(s[..|s| - 1]), s[|s| - 1]);
      assert s == s[..|s| - 1] + [s[|s| - 1]];
    }
  }

  lemma {:induction false} CountsWithout(xs: seq<real>, i: nat, v: real)
    requires i < |xs|
    ensures Below(xs, v) == Below(xs[..i] + xs[i + 1..], v) + (if xs[i] < v then 1 else 0)
    ensures Equal(xs, v) == Equal(xs[..i] + xs[i + 1..], v) + (if xs[i] == v then 1 else 0)
  {
    var n := |xs| - 1;
    if i < n {
      CountsWithout(xs[..n], i, v);
      var rest := xs[..i] + xs[i + 1..];
      assert rest[..|rest| - 1] == xs[..n][..i] + xs[..n][i + 1..] && rest[|rest| - 1] == xs[n] && xs[..n][i] == xs[i];
    } else {
      assert xs[..i] + xs[i + 1..] == xs[..n];
    }
  }

  lemma Removed(ys: seq<real>, x: real) returns (i: nat)
    requires x in multiset(ys)
    ensures i < |ys| && ys[i] == x && multiset(ys[..i] + ys[i + 1..]) == multiset(ys) - multiset{x}
  {
    i :| 0 <= i < |ys| && ys[i] == x;
    assert ys == ys[..i] + [ys[i]] + ys[i + 1..];
  }

  lemma LastRemoved(xs: seq<real>)
    requires xs != []
    ensures xs[|xs| - 1] in multiset(xs) && multiset(xs[..|xs| - 1]) == multiset(xs) - multiset{xs[|xs| - 1]}
  {
    assert xs == xs[..|xs| - 1] + [xs[|xs| - 1]];
  }

  lemma {:induction false} CountsAgree(xs: seq<real>, ys: seq<real>, v: real)
    requires multiset(xs) == multiset(ys)
    ensures Below(xs, v) == Below(ys, v) && Equal(xs, v) == Equal(ys, v)
    decreases |xs|
  {
    if xs != [] {
      var n := |xs| - 1;
      LastRemoved(xs);
      var i := Removed(ys, xs[n]);
      CountsAgree(xs[..n], ys[..i] + ys[i + 1..], v);
      CountsWithout(ys, i, v);
    } else {
      assert ys == [] by { assert |multiset(ys)| == |ys|; }
    }
  }

  /** The percentile depends on the cohort as a multiset only. */
  lemma OrderNeverMatters(xs: seq<real>, ys: seq<real>, v: real)
    requires multiset(xs) == multiset(ys) && xs != []
    ensures ys != [] && Percentile(v, xs) == Percentile(v, ys)
  {
    assert |multiset(xs)| == |xs| && |multiset(ys)| == |ys|;
    CountsAgree(xs, ys, v);
  }

  lemma {:induction false} WeightBounds(xs: seq<real>, v: real)
    ensures Below(xs, v) + Equal(xs, v) <= |xs|
    ensures v in xs ==> Equal(xs, v) > 0
  {
    if xs != [] {
      WeightBounds(xs[..|xs| - 1], v);
      assert xs == xs[..|xs| - 1] + [xs[|xs| - 1]];
    }
  }

  lemma Scaled(w: real, n: real)
    requires n > 0.0
    ensures 50.0 * w / n * n == 50.0 * w
  {}

  lemma ScaledOrder(a: real, b: real, n: real)
    requires n > 0.0
    ensures 50.0 * a / n <= 50.0 * b / n <==> a <= b
  {
    Scaled(a, n);
    Scaled(b, n);
    var x, y := 50.0 * a / n, 50.0 * b / n;
    if x <= y { assert x * n <= y * n; } else { assert x * n > y * n; }
  }

  /** Always in [0, 100], and strictly inside for cohort members. */
  lemma WithinScale(v: real, cohort: seq<real>)
    requires cohort != []
    ensures 0.0 <= Percentile(v, cohort) <= 100.0
    ensures v in cohort ==> 0.0 < Percentile(v, cohort) < 100.0
  {
    WeightBounds(cohort, v);
    var n, w := |cohort| as real, Weight(cohort, v) as real;
    ScaledOrder(0.0, w, n);
    ScaledOrder(w, 0.0, n);
    ScaledOrder(w, 2.0 * n, n);
    ScaledOrder(2.0 * n, w, n);
    assert 50.0 * 0.0 / n == 0.0;
    assert 50.0 * (2.0 * n) / n == 100.0 by { assert 50.0 * (2.0 * n) == 100.0 * n; }
  }

  lemma {:induction false} WeightGrows(xs: seq<real>, u: real, v: real)
    requires u < v
    ensures Weight(xs, u) <= Weight(xs, v)
    ensures Weight(xs, u) < Weight(xs, v) <==> exists i :: 0 <= i < |xs| && u <= xs[i] <= v
  {
    if xs != [] {
      var n := |xs| - 1;
      WeightGrows(xs[..n], u, v);
      if i :| 0 <= i < |xs| && u <= xs[i] <= v {
        if i < n { assert xs[..n][i] == xs[i]; }
      }
      if i :| 0 <= i < n && u <= xs[..n][i] <= v {
        assert xs[i] == xs[..n][i];
      }
    }
  }

  /** A larger value never ranks lower, and ranks strictly higher exactly when some
      cohort member separates the two; in particular on cohort members. */
  lemma StrictlyIncreasing(u: real, v: real, cohort: seq<real>)
    requires cohort != [] && u < v
    ensures Percentile(u, cohort) <= Percentile(v, cohort)
    ensures Percentile(u, cohort) < Percentile(v, cohort) <==> exists i :: 0 <= i < |cohort| && u <= cohort[i] <= v
  {
    WeightGrows(cohort, u, v);
    ScaledOrder(Weight(cohort, u) as real, Weight(cohort, v) as real, |cohort| as real);
    ScaledOrder(Weight(cohort, v) as real, Weight(cohort, u) as real, |cohort| as real);
  }

  // ---- the average over a cohort ----

  function Sign(a: real): int {
    if a > 0.0 then 1 else if a < 0.0 then -1 else 0
  }

  /** Members below `v` less members above it. */
  function Lead(xs: seq<real>, v: real): int {
    if xs == [] then 0 else Lead(xs[..|xs| - 1], v) + Sign(v - xs[|xs| - 1])
  }

  function Leads(vs: seq<real>, xs: seq<real>): int {
    if vs == [] then 0 else Leads(vs[..|vs| - 1], xs) + Lead(xs, vs[|vs| - 1])
  }

  lemma {:induction false} LeadsOfNone(vs: seq<real>)
    ensures Leads(vs, []) == 0
  {
    if vs != [] { LeadsOfNone(vs[..|vs| - 1]); }
  }

  lemma {:induction false} LeadsGrow(vs: seq<real>, xs: seq<real>, x: real)
    ensures Leads(vs, xs + [x]) == Leads(vs, xs) - Lead(vs, x)
  {
    if vs != [] {
      LeadsGrow(vs[..|vs| - 1], xs, x);
      assert (xs + [x])[..|xs|] == xs;
    }
  }

  /** What one side leads, the other trails. */
  lemma {:induction false} LeadsOppose(vs: seq<real>, xs: seq<real>)
    ensures Leads(vs, xs) == -Leads(xs, vs)
  {
    if xs == [] {
      LeadsOfNone(vs);
    } else {
      var n := |xs| - 1;
      LeadsOppose(vs, xs[..n]);
      LeadsGrow(vs, xs[..n], xs[n]);
      assert xs == xs[..n] + [xs[n]];
    }
  }

  lemma {:induction false} WeightIsLead(xs: seq<real>, v: real)
    ensures Weight(xs, v) == |xs| + Lead(xs, v)
  {
    if xs != [] { WeightIsLead(xs[..|xs| - 1], v); }
  }

  function PercentileSum(vs: seq<real>, cohort: seq<real>): real
    requires cohort != []
  {
    if vs == [] then 0.0 else PercentileSum(vs[..|vs| - 1], cohort) + Percentile(vs[|vs| - 1], cohort)
  }

  /** What a lead is worth in a cohort of `n`. */
  function Gain(n: nat, lead: int): real
    requires n > 0
  {
    50.0 / n as real * lead as real
  }

  lemma GainAdds(n: nat, a: int, b: int)
    requires n > 0
    ensures Gain(n, a + b) == Gain(n, a) + Gain(n, b)
  {
    var u := 50.0 / n as real;
    assert u * (a as real + b as real) == u * a as real + u * b as real;
  }

  lemma Spread(n: real, lead: real)
    requires n > 0.0
    ensures 50.0 * (n + lead) / n == 50.0 + 50.0 / n * lead
  {
    var u := 50.0 / n;
    assert u * n == 50.0;
    assert 50.0 * (n + lead) == u * n * (n + lead);
    assert u * n * (n + lead) / n == u * (n + lead);
    assert u * (n + lead) == u * n + u * lead;
  }

  lemma OneLead(v: real, cohort: seq<real>)
    requires cohort != []
    ensures Percentile(v, cohort) == 50.0 + Gain(|cohort|, Lead(cohort, v))
  {
    WeightIsLead(cohort, v);
    Spread(|cohort| as real, Lead(cohort, v) as real);
    hide Weight, Lead;
  }

  lemma {:induction false} SumIsLeads(vs: seq<real>, cohort: seq<real>)
    requires cohort != []
    ensures PercentileSum(vs, cohort) == 50.0 * |vs| as real + Gain(|cohort|, Leads(vs, cohort))
  {
    if vs != [] {
      var n, v := |vs| - 1, vs[|vs| - 1];
      SumIsLeads(vs[..n], cohort);
      OneLead(v, cohort);
      hide Percentile, Lead, Gain;
      GainAdds(|cohort|, Leads(vs[..n], cohort), Lead(cohort, v));
    }
  }

  /** Over its own cohort the percentile averages exactly 50. */
  lemma AveragesFifty(cohort: seq<real>)
    requires cohort != []
    ensures PercentileSum(cohort, cohort) / |cohort| as real == 50.0
  {
    SumIsLeads(cohort, cohort);
    LeadsOppose(cohort, cohort);
    hide PercentileSum, Leads;
  }

  // ---- lower is better ----

  function Negated(xs: seq<real>): seq<real> {
    seq(|xs|, i requires 0 <= i < |xs| => -xs[i])
  }

  lemma {:induction false} NegatedLead(xs: seq<real>, v: real)
    ensures Lead(Negated(xs), -v) == -Lead(xs, v)
  {
    if xs != [] {
      NegatedLead(xs[..|xs| - 1], v);
      assert Negated(xs)[..|xs| - 1] == Negated(xs[..|xs| - 1]);
    }
  }

  /** Ranking the negated values is exactly inverting the percentile. */
  lemma NegatingInverts(v: real, cohort: seq<real>)
    requires cohort != []
    ensures Percentile(-v, Negated(cohort)) == Invert(Percentile(v, cohort))
  {
    NegatedLead(cohort, v);
    OneLead(v, cohort);
    OneLead(-v, Negated(cohort));
    hide Percentile, Lead;
  }
}
