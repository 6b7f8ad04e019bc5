/** Pooling metric observations by their declared rule. */
module Aggregation {
  import opened Wrappers

  datatype Ref = Ref(matchId: string, kind: string, id: string, ruleVersion: string, contractVersion: string,
      sourceSeq: int)

  /** A published observation, of a player or of a whole match pool. */
  datatype Value = Value(
    metricId: string, version: string, value: real, numerator: Option<real>, denominator: Option<real>,
    opportunities: int, direction: string, official: bool, experimental: bool, lineage: seq<Ref>)

  datatype Aggregate = Aggregate(
    metricId: string, version: string, value: real, numerator: real, denominator: real,
    opportunities: int, eligible: nat, direction: string, official: bool, experimental: bool, lineage: seq<Ref>)

  /** An aggregate read as one observation of the next level. */
  function ToValue(a: Aggregate): Value {
    Value(a.metricId, a.version, a.value, Some(a.numerator), Some(a.denominator), a.opportunities,
          a.direction, a.official, a.experimental, a.lineage)
  }

  /** The aggregate with its own reference under its sources. */
  function WithRef(a: Aggregate, own: Ref): Aggregate {
    a.(lineage := a.lineage + [own])
  }

  // ---- rules ----

  datatype Rule = Rate | Repooled | Largest | Seconds | Total

  predicate OccursAt(text: string, part: string, i: nat) {
    i + |part| <= |text| && text[i..i + |part|] == part
  }

  predicate Contains(text: string, part: string) {
    exists i :: 0 <= i <= |text| && OccursAt(text, part, i)
  }

  /** The rule a (lower-case) registry text declares; the first phrase found wins. */
  function RuleOf(text: string): Rule {
    if Contains(text, "sum numerator divided by sum denominator") then Rate
    else if Contains(text, "never average stored percentiles") then Repooled
    else if Contains(text, "max") then Largest
    else if Contains(text, "sum eligible non-overlapping seconds") then Seconds
    else Total
  }

  // ---- sums over observations ----

  function Given(x: Option<real>): real {
    if x.Some? then x.value else 0.0
  }

  function SumNumerators(vs: seq<Value>): real {
    if vs == [] then 0.0 else SumNumerators(vs[..|vs| - 1]) + Given(vs[|vs| - 1].numerator)
  }

  function SumDenominators(vs: seq<Value>): real {
    if vs == [] then 0.0 else SumDenominators(vs[..|vs| - 1]) + Given(vs[|vs| - 1].denominator)
  }

  function SumValues(vs: seq<Value>): real {
    if vs == [] then 0.0 else SumValues(vs[..|vs| - 1]) + vs[|vs| - 1].value
  }

  function SumOpportunities(vs: seq<Value>): int {
    if vs == [] then 0 else SumOpportunities(vs[..|vs| - 1]) + vs[|vs| - 1].opportunities
  }

  function LargestOf(vs: seq<Value>): real
    requires vs != []
  {
    var v, earlier := vs[|vs| - 1].value, vs[..|vs| - 1];
    if earlier == [] || v > LargestOf(earlier) then v else LargestOf(earlier)
  }

  predicate AnyNumerator(vs: seq<Value>) {
    exists i :: 0 <= i < |vs| && vs[i].numerator.Some?
  }

  predicate AnyDenominator(vs: seq<Value>) {
    exists i :: 0 <= i < |vs| && vs[i].denominator.Some?
  }

  // ---- lineage ----

  function Key(r: Ref): (string, string, string) {
    (r.matchId, r.kind, r.id)
  }

  ghost predicate HasKey(refs: seq<Ref>, k: (string, string, string)) {
    exists i :: 0 <= i < |refs| && Key(refs[i]) == k
  }

  /** Appends what is new under its key. */
  ghost function Merge(refs: seq<Ref>, more: seq<Ref>): seq<Ref> {
    if more == [] then refs
    else
      var merged, r := Merge(refs, more[..|more| - 1]), more[|more| - 1];
      if HasKey(merged, Key(r)) then merged else merged + [r]
  }

  ghost function MergedLineage(vs: seq<Value>): seq<Ref> {
    if vs == [] then [] else Merge(MergedLineage(vs[..|vs| - 1]), vs[|vs| - 1].lineage)
  }

  // ---- aggregation ----

  /** The first observation fixes the version; the others must match it and the metric. */
  predicate Comparable(mid: string, vs: seq<Value>) {
    && vs != []
    && vs[0].version != ""
    && forall i :: 1 <= i < |vs| ==> vs[i].metricId == mid && vs[i].version == vs[0].version
  }

  predicate RateDefined(vs: seq<Value>) {
    AnyDenominator(vs) && SumDenominators(vs) > 0.0
  }

  function PooledValue(rule: Rule, vs: seq<Value>): real
    requires vs != []
  {
    match rule
    case Rate => if RateDefined(vs) then SumNumerators(vs) / SumDenominators(vs) else 0.0
    case Repooled => if RateDefined(vs) then SumNumerators(vs) / SumDenominators(vs) else SumValues(vs) / |vs| as real
    case Largest => LargestOf(vs)
    case Seconds => SumValues(vs)
    case Total => SumValues(vs)
  }

  function PooledNumerator(rule: Rule, vs: seq<Value>): real
    requires vs != []
  {
    match rule
    case Rate => SumNumerators(vs)
    case Repooled => SumNumerators(vs)
    case Largest => LargestOf(vs)
    case Seconds => SumValues(vs)
    case Total => if AnyNumerator(vs) then SumNumerators(vs) else SumValues(vs)
  }

  function PooledDenominator(rule: Rule, vs: seq<Value>): real {
    if rule == Largest || rule == Total then 0.0 else SumDenominators(vs)
  }

  predicate Publishes(mid: string, rule: Rule, vs: seq<Value>) {
    Comparable(mid, vs) && (rule == Rate ==> RateDefined(vs))
  }

  /** The aggregate of the observations, when the rule yields one. */
  ghost function Pool(mid: string, rule: Rule, vs: seq<Value>): Option<Aggregate> {
    if !Publishes(mid, rule, vs) then None
    else Some(Aggregate(
      mid, vs[0].version, PooledValue(rule, vs), PooledNumerator(rule, vs), PooledDenominator(rule, vs),
      SumOpportunities(vs), |vs|, vs[0].direction, vs[0].official, vs[0].experimental, MergedLineage(vs)))
  }

  method AggregateValues(mid: string, rule: Rule, vs: seq<Value>) returns (r: Option<Aggregate>)
    ensures r == Pool(mid, rule, vs)
  {
    if |vs| == 0 || vs[0].version == "" {
      return None;
    }
    for i := 1 to |vs|
      invariant forall j :: 1 <= j < i ==> vs[j].metricId == mid && vs[j].version == vs[0].version
    {
      if vs[i].metricId != mid || vs[i].version != vs[0].version {
        return None;
      }
    }
    var sums := SumUp(vs);
    var lineage := MergeLineages(vs);
    r := Conclude(mid, rule, vs, sums, lineage);
  }

  datatype Sums = Sums(num: real, den: real, numOk: bool, denOk: bool, maxV: real, sumV: real, opportunities: int)

  ghost predicate Summed(s: Sums, vs: seq<Value>) {
    && s.num == SumNumerators(vs) && s.den == SumDenominators(vs)
    && s.numOk == AnyNumerator(vs) && s.denOk == AnyDenominator(vs)
    && (vs != [] ==> s.maxV == LargestOf(vs)) && s.sumV == SumValues(vs)
    && s.opportunities == SumOpportunities(vs)
  }

  function AddValue(s: Sums, v: Value, first: bool): Sums {
    Sums(
      s.num + Given(v.numerator), s.den + Given(v.denominator),
      s.numOk || v.numerator.Some?, s.denOk || v.denominator.Some?,
      if first || v.value > s.maxV then v.value else s.maxV,
      s.sumV + v.value, s.opportunities + v.opportunities)
  }

  lemma SummedNext(s: Sums, vs: seq<Value>, v: Value)
    requires Summed(s, vs)
    ensures Summed(AddValue(s, v, vs == []), vs + [v])
  {
    assert (vs + [v])[..|vs|] == vs;
    AnyNext(vs, v);
  }

  lemma AnyNext(vs: seq<Value>, v: Value)
    ensures AnyNumerator(vs + [v]) == (AnyNumerator(vs) || v.numerator.Some?)
    ensures AnyDenominator(vs + [v]) == (AnyDenominator(vs) || v.denominator.Some?)
  {
    var all := vs + [v];
    assert all[|vs|] == v && forall i :: 0 <= i < |vs| ==> all[i] == vs[i];
    if i :| 0 <= i < |vs| && vs[i].numerator.Some? { assert all[i].numerator.Some?; }
    if i :| 0 <= i < |vs| && vs[i].denominator.Some? { assert all[i].denominator.Some?; }
  }

  method SumUp(vs: seq<Value>) returns (s: Sums)
    ensures Summed(s, vs)
  {
    s := Sums(0.0, 0.0, false, false, 0.0, 0.0, 0);
    for i := 0 to |vs|
      invariant Summed(s, vs[..i])
    {
      assert vs[..i + 1] == vs[..i] + [vs[i]];
      SummedNext(s, vs[..i], vs[i]);
      hide Summed;
      s := AddValue(s, vs[i], i == 0);
    }
    assert vs[..|vs|] == vs;
  }

  method MergeLineages(vs: seq<Value>) returns (lineage: seq<Ref>)
    ensures lineage == MergedLineage(vs)
  {
    lineage := [];
    var seen: set<(string, string, string)> := {};
    for i := 0 to |vs|
      invariant lineage == MergedLineage(vs[..i])
      invariant forall k :: k in seen <==> HasKey(lineage, k)
    {
      assert vs[..i + 1][..i] == vs[..i];
      lineage, seen := MergeRefs(lineage, seen, vs[i].lineage);
    }
    assert vs[..|vs|] == vs;
  }

  method MergeRefs(
    refs: seq<Ref>, keys: set<(string, string, string)>, more: seq<Ref>)
    returns (merged: seq<Ref>, seen: set<(string, string, string)>)
    requires forall k :: k in keys <==> HasKey(refs, k)
    ensures merged == Merge(refs, more)
    ensures forall k :: k in seen <==> HasKey(merged, k)
  {
    merged, seen := refs, keys;
    for j := 0 to |more|
      invariant merged == Merge(refs, more[..j])
      invariant forall k :: k in seen <==> HasKey(merged, k)
    {
      assert more[..j + 1][..j] == more[..j];
      var k := Key(more[j]);
      if k !in seen {
        KeysNext(merged, more[j]);
        seen, merged := seen + {k}, merged + [more[j]];
      }
    }
    assert more[..|more|] == more;
  }

  lemma KeysNext(refs: seq<Ref>, r: Ref)
    ensures forall k :: HasKey(refs + [r], k) <==> HasKey(refs, k) || k == Key(r)
  {
    var all := refs + [r];
    assert all[|refs|] == r && forall i :: 0 <= i < |refs| ==> all[i] == refs[i];
    forall k | HasKey(refs, k) ensures HasKey(all, k) {
      var i :| 0 <= i < |refs| && Key(refs[i]) == k;
      assert Key(all[i]) == k;
    }
    assert Key(all[|refs|]) == Key(r);
  }

  method Conclude(mid: string, rule: Rule, vs: seq<Value>, s: Sums, lineage: seq<Ref>) returns (r: Option<Aggregate>)
    requires Comparable(mid, vs) && Summed(s, vs) && lineage == MergedLineage(vs)
    ensures r == Pool(mid, rule, vs)
  {
    hide MergedLineage, SumNumerators, SumDenominators, SumValues, LargestOf, SumOpportunities, AnyNumerator;
    hide AnyDenominator;
    var agg := Aggregate(
      mid, vs[0].version, 0.0, 0.0, 0.0, s.opportunities, |vs|, vs[0].direction, vs[0].official, vs[0].experimental,
      lineage);
    match rule {
      case Rate =>
        if !(s.denOk && s.den > 0.0) {
          return None;
        }
        agg := agg.(value := s.num / s.den, numerator := s.num, denominator := s.den);
      case Repooled =>
        agg := agg.(numerator := s.num, denominator := s.den);
        agg := agg.(value := if s.denOk && s.den > 0.0 then s.num / s.den else s.sumV / |vs| as real);
      case Largest =>
        agg := agg.(value := s.maxV, numerator := s.maxV);
      case Seconds =>
        agg := agg.(value := s.sumV, numerator := s.sumV, denominator := s.den);
      case Total =>
        agg := agg.(value := s.sumV, numerator := if s.numOk then s.num else s.sumV);
    }
    r := Some(agg);
  }

  // ---- merged lineage ----

  ghost predicate DistinctKeys(refs: seq<Ref>) {
    forall i, j :: 0 <= i < j < |refs| ==> Key(refs[i]) != Key(refs[j])
  }

  lemma {:induction false} MergeKeeps(refs: seq<Ref>, more: seq<Ref>)
    requires DistinctKeys(refs)
    ensures var merged := Merge(refs, more);
      && DistinctKeys(merged)
      && (forall k :: HasKey(merged, k) <==> HasKey(refs, k) || HasKey(more, k))
      && (forall r :: r in merged ==> r in refs || r in more)
  {
    if more != [] {
      var n := |more| - 1;
      MergeKeeps(refs, more[..n]);
      KeysNext(more[..n], more[n]);
      KeysNext(Merge(refs, more[..n]), more[n]);
      assert more == more[..n] + [more[n]];
    }
  }

  ghost predicate Contributed(vs: seq<Value>, r: Ref) {
    exists i :: 0 <= i < |vs| && r in vs[i].lineage
  }

  ghost predicate KeyContributed(vs: seq<Value>, k: (string, string, string)) {
    exists i :: 0 <= i < |vs| && HasKey(vs[i].lineage, k)
  }

  /** Merging keeps every source once: keys are those of the inputs, each kept once. */
  lemma {:induction false} LineageKeepsSources(vs: seq<Value>)
    ensures DistinctKeys(MergedLineage(vs))
    ensures forall k :: HasKey(MergedLineage(vs), k) <==> KeyContributed(vs, k)
    ensures forall r :: r in MergedLineage(vs) ==> Contributed(vs, r)
  {
    if vs != [] {
      var n := |vs| - 1;
      LineageKeepsSources(vs[..n]);
      MergeKeeps(MergedLineage(vs[..n]), vs[n].lineage);
      ContributionsGrow(vs[..n], vs[n]);
      assert vs == vs[..n] + [vs[n]];
      hide Merge, HasKey, DistinctKeys;
    }
  }

  lemma ContributionsGrow(vs: seq<Value>, v: Value)
    ensures forall k :: KeyContributed(vs + [v], k) <==> KeyContributed(vs, k) || HasKey(v.lineage, k)
    ensures forall r :: Contributed(vs + [v], r) <==> Contributed(vs, r) || r in v.lineage
  {
    hide HasKey;
    var all := vs + [v];
    assert all[|vs|] == v && forall i :: 0 <= i < |vs| ==> all[i] == vs[i];
    forall k | KeyContributed(vs, k) ensures KeyContributed(all, k) {
      var i :| 0 <= i < |vs| && HasKey(vs[i].lineage, k);
      assert HasKey(all[i].lineage, k);
    }
    forall r | Contributed(vs, r) ensures Contributed(all, r) {
      var i :| 0 <= i < |vs| && r in vs[i].lineage;
      assert r in all[i].lineage;
    }
    forall k | HasKey(v.lineage, k) ensures KeyContributed(all, k) { assert HasKey(all[|vs|].lineage, k); }
    forall r | r in v.lineage ensures Contributed(all, r) { assert r in all[|vs|].lineage; }
  }
}
