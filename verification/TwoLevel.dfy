/** Pooling in two levels, players into matches and matches into a tournament, against
    pooling all player rows at once. */
module TwoLevel {
  import opened Wrappers
  import opened Aggregation

  /** A match pool seen as one observation of the next level. Its own reference joins the
      lineage. */
  function AsValue(a: Aggregate, own: Ref): Value {
    ToValue(WithRef(a, own))
  }

  /** The pools of the groups that publish. */
  ghost function Pools(mid: string, rule: Rule, groups: seq<seq<Value>>, owns: seq<Ref>): seq<Value>
    requires |groups| == |owns|
  {
    if groups == [] then []
    else
      var n := |groups| - 1;
      var p := Pool(mid, rule, groups[n]);
      Pools(mid, rule, groups[..n], owns[..n]) + (if p.Some? then [AsValue(p.value, owns[n])] else [])
  }

  function Flatten(groups: seq<seq<Value>>): seq<Value> {
    if groups == [] then [] else Flatten(groups[..|groups| - 1]) + groups[|groups| - 1]
  }

  function Kept(mid: string, rule: Rule, groups: seq<seq<Value>>): seq<seq<Value>> {
    if groups == [] then []
    else
      var n := |groups| - 1;
      Kept(mid, rule, groups[..n]) + (if Publishes(mid, rule, groups[n]) then [groups[n]] else [])
  }

  function Dropped(mid: string, rule: Rule, groups: seq<seq<Value>>): seq<seq<Value>> {
    if groups == [] then []
    else
      var n := |groups| - 1;
      Dropped(mid, rule, groups[..n]) + (if Publishes(mid, rule, groups[n]) then [] else [groups[n]])
  }

  /** Same metric and version throughout. */
  ghost predicate Uniform(vs: seq<Value>, mid: string, ver: string) {
    forall i :: 0 <= i < |vs| ==> vs[i].metricId == mid && vs[i].version == ver
  }

  ghost predicate AllUniform(groups: seq<seq<Value>>, mid: string, ver: string) {
    ver != "" && forall i :: 0 <= i < |groups| ==> Uniform(groups[i], mid, ver)
  }

  // ---- sums over concatenations ----

  lemma {:induction false} SumsConcat(a: seq<Value>, b: seq<Value>)
    ensures SumNumerators(a + b) == SumNumerators(a) + SumNumerators(b)
    ensures SumDenominators(a + b) == SumDenominators(a) + SumDenominators(b)
    ensures SumValues(a + b) == SumValues(a) + SumValues(b)
    ensures SumOpportunities(a + b) == SumOpportunities(a) + SumOpportunities(b)
  {
    if b == [] {
      assert a + b == a;
    } else {
      var n := |b| - 1;
      SumsConcat(a, b[..n]);
      assert (a + b)[..|a + b| - 1] == a + b[..n];
    }
  }

  lemma {:induction false} LargestConcat(a: seq<Value>, b: seq<Value>)
    requires a != [] && b != []
    ensures LargestOf(a + b) == if LargestOf(b) > LargestOf(a) then LargestOf(b) else LargestOf(a)
  {
    var n := |b| - 1;
    assert (a + b)[..|a + b| - 1] == a + b[..n];
    if n > 0 {
      LargestConcat(a, b[..n]);
    } else {
      assert a + b[..n] == a;
    }
  }

  lemma AnyConcat(a: seq<Value>, b: seq<Value>)
    ensures AnyDenominator(a + b) == (AnyDenominator(a) || AnyDenominator(b))
  {
    var all := a + b;
    if i :| 0 <= i < |a| && a[i].denominator.Some? { assert all[i].denominator.Some?; }
    if i :| 0 <= i < |b| && b[i].denominator.Some? { assert all[|a| + i].denominator.Some?; }
  }

  lemma UniformConcat(a: seq<Value>, b: seq<Value>, mid: string, ver: string)
    ensures Uniform(a + b, mid, ver) <==> Uniform(a, mid, ver) && Uniform(b, mid, ver)
  {
    var all := a + b;
    assert forall i :: 0 <= i < |a| ==> all[i] == a[i];
    assert forall i :: 0 <= i < |b| ==> all[|a| + i] == b[i];
    if Uniform(all, mid, ver) {
      forall i | 0 <= i < |b| ensures b[i].metricId == mid && b[i].version == ver { assert all[|a| + i] == b[i]; }
    }
  }

  // ---- pools against the rows they pool ----

  /** The pools carry exactly the totals their rule needs. */
  ghost predicate Carries(rule: Rule, pools: seq<Value>, rows: seq<Value>) {
    && (pools == [] <==> rows == [])
    && SumOpportunities(pools) == SumOpportunities(rows)
    && (rule in {Rate, Repooled} ==> SumNumerators(pools) == SumNumerators(rows))
    && (rule in {Rate, Repooled, Seconds} ==> SumDenominators(pools) == SumDenominators(rows))
    && (rule in {Seconds, Total} ==> SumValues(pools) == SumValues(rows))
    && (rule == Largest && rows != [] ==> LargestOf(pools) == LargestOf(rows))
    && (AnyDenominator(pools) <==> pools != [])
    && (rule == Rate && rows != [] ==> RateDefined(rows))
  }

  lemma OnePool(mid: string, rule: Rule, g: seq<Value>, own: Ref)
    requires Publishes(mid, rule, g)
    ensures Carries(rule, [AsValue(Pool(mid, rule, g).value, own)], g)
  {
    var v := AsValue(Pool(mid, rule, g).value, own);
    OneValue(v);
    hide MergedLineage, SumNumerators, SumDenominators, SumValues, SumOpportunities, LargestOf, AnyDenominator;
    hide AnyNumerator;
  }

  lemma OneValue(v: Value)
    ensures SumNumerators([v]) == Given(v.numerator) && SumDenominators([v]) == Given(v.denominator)
    ensures SumValues([v]) == v.value && SumOpportunities([v]) == v.opportunities && LargestOf([v]) == v.value
    ensures AnyDenominator([v]) == v.denominator.Some?
  {
    var one := [v];
    assert one[..0] == [] && one[0] == v;
    if v.denominator.Some? { assert one[0].denominator.Some?; }
  }

  lemma CarriesConcat(rule: Rule, p: seq<Value>, q: seq<Value>, a: seq<Value>, b: seq<Value>)
    requires Carries(rule, p, a) && Carries(rule, q, b)
    ensures Carries(rule, p + q, a + b)
  {
    SumsConcat(p, q);
    SumsConcat(a, b);
    AnyConcat(p, q);
    AnyConcat(a, b);
    if p != [] && q != [] && rule == Largest {
      LargestConcat(p, q);
      LargestConcat(a, b);
    }
    if p == [] { assert p + q == q && a + b == b; }
    if q == [] { assert p + q == p && a + b == a; }
    hide SumNumerators, SumDenominators, SumValues, SumOpportunities, LargestOf, AnyDenominator;
  }

  /** What the last group changes. */
  lemma LastGroup(mid: string, rule: Rule, groups: seq<seq<Value>>)
    requires groups != []
    ensures var n := |groups| - 1;
      && Flatten(groups) == Flatten(groups[..n]) + groups[n]
      && (if Publishes(mid, rule, groups[n])
          then Kept(mid, rule, groups) == Kept(mid, rule, groups[..n]) + [groups[n]] &&
                 Flatten(Kept(mid, rule, groups)) == Flatten(Kept(mid, rule, groups[..n])) + groups[n]
          else Kept(mid, rule, groups) == Kept(mid, rule, groups[..n]))
      && (if Publishes(mid, rule, groups[n])
          then Dropped(mid, rule, groups) == Dropped(mid, rule, groups[..n])
          else Dropped(mid, rule, groups) == Dropped(mid, rule, groups[..n]) + [groups[n]] &&
                 Flatten(Dropped(mid, rule, groups)) == Flatten(Dropped(mid, rule, groups[..n])) + groups[n])
  {
    var n := |groups| - 1;
    FlattenNext(Kept(mid, rule, groups[..n]), groups[n]);
    FlattenNext(Dropped(mid, rule, groups[..n]), groups[n]);
    hide Publishes;
  }

  lemma LastPool(mid: string, rule: Rule, groups: seq<seq<Value>>, owns: seq<Ref>)
    requires groups != [] && |groups| == |owns|
    ensures var n := |groups| - 1;
      Pools(mid, rule, groups, owns) ==
        if Publishes(mid, rule, groups[n]) then Pools(mid, rule, groups[..n], owns[..n]) +
            [AsValue(Pool(mid, rule, groups[n]).value, owns[n])]
        else Pools(mid, rule, groups[..n], owns[..n])
  {
    PoolWhen(mid, rule, groups[|groups| - 1]);
    hide Pool, Publishes;
  }

  lemma FlattenNext(groups: seq<seq<Value>>, g: seq<Value>)
    ensures Flatten(groups + [g]) == Flatten(groups) + g
  {
    assert (groups + [g])[..|groups|] == groups;
  }

  lemma {:induction false} PoolsCarry(mid: string, rule: Rule, groups: seq<seq<Value>>, owns: seq<Ref>)
    requires |groups| == |owns|
    ensures Carries(rule, Pools(mid, rule, groups, owns), Flatten(Kept(mid, rule, groups)))
  {
    if groups != [] {
      var n := |groups| - 1;
      var g := groups[n];
      PoolsCarry(mid, rule, groups[..n], owns[..n]);
      LastGroup(mid, rule, groups);
      LastPool(mid, rule, groups, owns);
      PoolWhen(mid, rule, g);
      hide Carries, Pool, Publishes, Pools, Kept, Flatten;
      if Publishes(mid, rule, g) {
        OnePool(mid, rule, g, owns[n]);
        CarriesConcat(
          rule, Pools(mid, rule, groups[..n], owns[..n]), [AsValue(Pool(mid, rule, g).value, owns[n])],
          Flatten(Kept(mid, rule, groups[..n])), g);
      }
    }
  }

  lemma PoolWhen(mid: string, rule: Rule, vs: seq<Value>)
    ensures Pool(mid, rule, vs).Some? <==> Publishes(mid, rule, vs)
  {}

  lemma {:induction false} PoolsUniform(mid: string, rule: Rule, groups: seq<seq<Value>>, owns: seq<Ref>, ver: string)
    requires |groups| == |owns| && AllUniform(groups, mid, ver)
    ensures Uniform(Pools(mid, rule, groups, owns), mid, ver)
    ensures Uniform(Flatten(groups), mid, ver) && Uniform(Flatten(Kept(mid, rule, groups)), mid, ver)
  {
    if groups != [] {
      var n := |groups| - 1;
      var g := groups[n];
      assert forall i :: 0 <= i < n ==> groups[..n][i] == groups[i];
      PoolsUniform(mid, rule, groups[..n], owns[..n], ver);
      LastGroup(mid, rule, groups);
      LastPool(mid, rule, groups, owns);
      UniformConcat(Flatten(groups[..n]), g, mid, ver);
      UniformConcat(Flatten(Kept(mid, rule, groups[..n])), g, mid, ver);
      if Publishes(mid, rule, g) {
        PoolUniform(mid, rule, g, owns[n], ver);
        UniformConcat(Pools(mid, rule, groups[..n], owns[..n]), [AsValue(Pool(mid, rule, g).value, owns[n])], mid, ver);
      }
      hide Uniform, Publishes, Pool, Pools, Kept, Flatten;
    }
  }

  lemma PoolUniform(mid: string, rule: Rule, g: seq<Value>, own: Ref, ver: string)
    requires Uniform(g, mid, ver) && Publishes(mid, rule, g)
    ensures Pool(mid, rule, g).Some? && Uniform([AsValue(Pool(mid, rule, g).value, own)], mid, ver)
  {
    hide MergedLineage, PooledValue, PooledNumerator, PooledDenominator, RateDefined, SumOpportunities;
  }

  lemma UniformPublishes(mid: string, rule: Rule, vs: seq<Value>, ver: string)
    requires Uniform(vs, mid, ver) && ver != ""
    ensures Publishes(mid, rule, vs) <==> vs != [] && (rule == Rate ==> RateDefined(vs))
  {}

  // ---- the theorem ----

  /** What two levels of pooling report. */
  ghost function Tournament(mid: string, rule: Rule, groups: seq<seq<Value>>, owns: seq<Ref>): Option<Aggregate>
    requires |groups| == |owns|
  {
    Pool(mid, rule, Pools(mid, rule, groups, owns))
  }

  /** Under every rule, two levels report exactly what one level reports over the rows of
      the matches that publish, opportunities included. For averages of raw values this
      takes a positive total denominator. */
  lemma TwoLevelsAreFlat(mid: string, rule: Rule, groups: seq<seq<Value>>, owns: seq<Ref>, ver: string)
    requires |groups| == |owns| && AllUniform(groups, mid, ver)
    ensures var two, flat := Tournament(mid, rule, groups, owns), Pool(mid, rule, Flatten(Kept(mid, rule, groups)));
      && (two.Some? <==> flat.Some?)
      && (two.Some? ==> two.value.opportunities == flat.value.opportunities && two.value.version == flat.value.version)
      && (two.Some? && (rule == Repooled ==> SumDenominators(Flatten(Kept(mid, rule, groups))) > 0.0) ==>
            two.value.value == flat.value.value)
  {
    var pools, rows := Pools(mid, rule, groups, owns), Flatten(Kept(mid, rule, groups));
    PoolsCarry(mid, rule, groups, owns);
    PoolsUniform(mid, rule, groups, owns, ver);
    UniformPublishes(mid, rule, pools, ver);
    UniformPublishes(mid, rule, rows, ver);
    PositiveMeansGiven(rows);
    hide Pools, Flatten, Kept, Publishes, MergedLineage, SumNumerators, SumDenominators, SumValues, SumOpportunities;
    hide LargestOf, AnyDenominator;
  }

  lemma {:induction false} PositiveMeansGiven(vs: seq<Value>)
    ensures SumDenominators(vs) > 0.0 ==> AnyDenominator(vs)
  {
    if vs != [] {
      PositiveMeansGiven(vs[..|vs| - 1]);
      assert vs == vs[..|vs| - 1] + [vs[|vs| - 1]];
      AnyNext(vs[..|vs| - 1], vs[|vs| - 1]);
    }
  }

  lemma {:induction false} KeptAll(mid: string, rule: Rule, groups: seq<seq<Value>>, ver: string)
    requires AllUniform(groups, mid, ver)
    requires rule == Rate ==> forall i :: 0 <= i < |groups| ==> RateDefined(groups[i])
    ensures Flatten(Kept(mid, rule, groups)) == Flatten(groups)
  {
    if groups != [] {
      var n := |groups| - 1;
      assert forall i :: 0 <= i < n ==> groups[..n][i] == groups[i];
      KeptAll(mid, rule, groups[..n], ver);
      UniformPublishes(mid, rule, groups[n], ver);
      LastGroup(mid, rule, groups);
      hide RateDefined, Publishes, Kept, Flatten;
      assert !Publishes(mid, rule, groups[n]) ==> Flatten(groups[..n]) + groups[n] == Flatten(groups[..n]);
    }
  }

  /** Sums, seconds and maxima agree with one flat pool always, and rates whenever every
      match has a positive denominator. */
  lemma TwoLevelsAgree(mid: string, rule: Rule, groups: seq<seq<Value>>, owns: seq<Ref>, ver: string)
    requires |groups| == |owns| && AllUniform(groups, mid, ver)
    requires rule == Rate ==> forall i :: 0 <= i < |groups| ==> RateDefined(groups[i])
    ensures var two, flat := Tournament(mid, rule, groups, owns), Pool(mid, rule, Flatten(groups));
      && (two.Some? <==> flat.Some?)
      && (two.Some? ==> two.value.opportunities == flat.value.opportunities)
      && (two.Some? && (rule == Repooled ==> SumDenominators(Flatten(groups)) > 0.0) ==>
           two.value.value == flat.value.value)
  {
    TwoLevelsAreFlat(mid, rule, groups, owns, ver);
    KeptAll(mid, rule, groups, ver);
  }

  // ---- rates with silent matches ----

  ghost predicate DenominatorsNonNegative(vs: seq<Value>) {
    forall i :: 0 <= i < |vs| ==> Given(vs[i].denominator) >= 0.0
  }

  lemma {:induction false} NonNegativeSum(vs: seq<Value>)
    requires DenominatorsNonNegative(vs)
    ensures SumDenominators(vs) >= 0.0
  {
    if vs != [] {
      assert forall i :: 0 <= i < |vs| - 1 ==> vs[..|vs| - 1][i] == vs[i];
      NonNegativeSum(vs[..|vs| - 1]);
    }
  }

  lemma {:induction false} NoneMeansZero(vs: seq<Value>)
    requires !AnyDenominator(vs)
    ensures SumDenominators(vs) == 0.0
  {
    if vs != [] {
      assert vs == vs[..|vs| - 1] + [vs[|vs| - 1]];
      AnyNext(vs[..|vs| - 1], vs[|vs| - 1]);
      NoneMeansZero(vs[..|vs| - 1]);
    }
  }

  lemma {:induction false} SplitSums(mid: string, groups: seq<seq<Value>>, ver: string)
    requires AllUniform(groups, mid, ver)
    requires forall i :: 0 <= i < |groups| ==> DenominatorsNonNegative(groups[i])
    ensures SumNumerators(Flatten(groups)) ==
              SumNumerators(Flatten(Kept(mid, Rate, groups))) + SumNumerators(Flatten(Dropped(mid, Rate, groups)))
    ensures SumDenominators(Flatten(groups)) == SumDenominators(Flatten(Kept(mid, Rate, groups)))
  {
    if groups != [] {
      var n := |groups| - 1;
      var g := groups[n];
      assert forall i :: 0 <= i < n ==> groups[..n][i] == groups[i];
      SplitSums(mid, groups[..n], ver);
      UniformPublishes(mid, Rate, g, ver);
      NonNegativeSum(g);
      if !AnyDenominator(g) { NoneMeansZero(g); }
      SumsConcat(Flatten(groups[..n]), g);
      SumsConcat(Flatten(Kept(mid, Rate, groups[..n])), g);
      SumsConcat(Flatten(Dropped(mid, Rate, groups[..n])), g);
      LastGroup(mid, Rate, groups);
      NoRows(g);
      hide SumNumerators, SumDenominators, AnyDenominator, Publishes, Kept, Dropped, Flatten;
    }
  }

  lemma NoRows(g: seq<Value>)
    ensures g == [] ==> SumNumerators(g) == 0.0 && SumDenominators(g) == 0.0
  {}

  /** A match without opportunities drops out of the rate together with its numerators:
      with non-negative denominators the two-level rate equals the flat one exactly when
      the dropped matches carry no numerator in sum. */
  lemma RatesAgreeWhen(mid: string, groups: seq<seq<Value>>, owns: seq<Ref>, ver: string)
    requires |groups| == |owns| && AllUniform(groups, mid, ver)
    requires forall i :: 0 <= i < |groups| ==> DenominatorsNonNegative(groups[i])
    requires Tournament(mid, Rate, groups, owns).Some?
    ensures var two, flat := Tournament(mid, Rate, groups, owns), Pool(mid, Rate, Flatten(groups));
      && flat.Some?
      && (two.value.value == flat.value.value <==> SumNumerators(Flatten(Dropped(mid, Rate, groups))) == 0.0)
  {
    TwoLevelsAreFlat(mid, Rate, groups, owns, ver);
    SplitSums(mid, groups, ver);
    PoolsUniform(mid, Rate, groups, owns, ver);
    var rows, kept := Flatten(groups), Flatten(Kept(mid, Rate, groups));
    UniformPublishes(mid, Rate, rows, ver);
    UniformPublishes(mid, Rate, kept, ver);
    PositiveMeansGiven(rows);
    hide Tournament, Flatten, Kept, Dropped, Publishes, MergedLineage, SumNumerators, SumDenominators, SumOpportunities;
    hide AnyDenominator;
    SameQuotient(SumNumerators(kept), SumNumerators(rows), SumDenominators(kept));
  }

  lemma SameQuotient(a: real, b: real, d: real)
    requires d > 0.0
    ensures a / d == b / d <==> a == b
  {
    if a / d == b / d { assert a / d * d == a && b / d * d == b; }
  }

  // ---- raw averages ----

  /** The sum of the values that the matches report, one for each. */
  function ReportSum(groups: seq<seq<Value>>): real
    requires forall i :: 0 <= i < |groups| ==> groups[i] != []
  {
    if groups == [] then 0.0 else ReportSum(groups[..|groups| - 1]) + PooledValue(Repooled, groups[|groups| - 1])
  }

  function Gap(m: real, n: real, report: real, values: real): real {
    n * report - m * values
  }

  /** How far the matches' reports, each weighing as much as the average match, are from
      the rows: with `m` matches and `n` rows, the sum of n * report - m * values. */
  function Imbalance(groups: seq<seq<Value>>, m: real, n: real): real
    requires forall i :: 0 <= i < |groups| ==> groups[i] != []
  {
    if groups == [] then 0.0
    else
      var g := groups[|groups| - 1];
      Imbalance(groups[..|groups| - 1], m, n) + Gap(m, n, PooledValue(Repooled, g), SumValues(g))
  }

  lemma GapAdds(m: real, n: real, a: real, b: real, v: real, w: real)
    ensures Gap(m, n, a, b) + Gap(m, n, v, w) == Gap(m, n, a + v, b + w)
  {}

  lemma {:induction false} ImbalanceIs(groups: seq<seq<Value>>, m: real, n: real)
    requires forall i :: 0 <= i < |groups| ==> groups[i] != []
    ensures Imbalance(groups, m, n) == Gap(m, n, ReportSum(groups), SumValues(Flatten(groups)))
  {
    if groups != [] {
      var k := |groups| - 1;
      var g := groups[k];
      ImbalanceIs(groups[..k], m, n);
      SumsConcat(Flatten(groups[..k]), g);
      GapAdds(m, n, ReportSum(groups[..k]), SumValues(Flatten(groups[..k])), PooledValue(Repooled, g), SumValues(g));
      hide PooledValue, SumValues, Gap;
    }
  }

  lemma {:induction false} KeptAreNotEmpty(mid: string, rule: Rule, groups: seq<seq<Value>>)
    ensures forall i :: 0 <= i < |Kept(mid, rule, groups)| ==> Kept(mid, rule, groups)[i] != []
  {
    if groups != [] {
      KeptAreNotEmpty(mid, rule, groups[..|groups| - 1]);
      LastGroup(mid, rule, groups);
      hide Kept;
    }
  }

  lemma {:induction false} ReportsAreValues(mid: string, groups: seq<seq<Value>>, owns: seq<Ref>)
    requires |groups| == |owns|
    ensures forall i :: 0 <= i < |Kept(mid, Repooled, groups)| ==> Kept(mid, Repooled, groups)[i] != []
    ensures SumValues(Pools(mid, Repooled, groups, owns)) == ReportSum(Kept(mid, Repooled, groups))
    ensures |Pools(mid, Repooled, groups, owns)| == |Kept(mid, Repooled, groups)|
  {
    KeptAreNotEmpty(mid, Repooled, groups);
    if groups != [] {
      var n := |groups| - 1;
      ReportsAreValues(mid, groups[..n], owns[..n]);
      LastGroup(mid, Repooled, groups);
      LastPool(mid, Repooled, groups, owns);
      if Publishes(mid, Repooled, groups[n]) {
        var kept := Kept(mid, Repooled, groups);
        assert kept[..|kept| - 1] == Kept(mid, Repooled, groups[..n]) && kept[|kept| - 1] == groups[n];
        PoolReports(mid, groups[n], owns[n]);
        var pools := Pools(mid, Repooled, groups[..n], owns[..n]);
        SumsConcat(pools, [AsValue(Pool(mid, Repooled, groups[n]).value, owns[n])]);
      }
      hide Publishes, Pool, Pools, Kept, Flatten, AsValue, PooledValue, SumValues;
    }
  }

  lemma PoolReports(mid: string, g: seq<Value>, own: Ref)
    requires Publishes(mid, Repooled, g)
    ensures Pool(mid, Repooled, g).Some?
    ensures SumValues([AsValue(Pool(mid, Repooled, g).value, own)]) == PooledValue(Repooled, g)
  {
    OneValue(AsValue(Pool(mid, Repooled, g).value, own));
    hide MergedLineage, PooledValue, SumValues;
  }

  lemma QuotientsAgree(a: real, m: real, b: real, n: real)
    requires m > 0.0 && n > 0.0
    ensures a / m == b / n <==> Gap(m, n, a, b) == 0.0
  {
    var x, y := a / m, b / n;
    assert a == x * m && b == y * n;
    assert n * a - m * b == n * m * (x - y);
    assert n * m > 0.0;
  }

  /** The exact condition: raw averages in two levels equal the flat one just when there is
      a positive total denominator, or the matches' reports balance their rows. */
  lemma AveragesAgreeWhen(mid: string, groups: seq<seq<Value>>, owns: seq<Ref>, ver: string)
    requires |groups| == |owns| && AllUniform(groups, mid, ver)
    requires Tournament(mid, Repooled, groups, owns).Some?
    ensures forall i :: 0 <= i < |Kept(mid, Repooled, groups)| ==> Kept(mid, Repooled, groups)[i] != []
    ensures var two, flat := Tournament(mid, Repooled, groups, owns), Pool(mid, Repooled, Flatten(groups));
      var matches := Kept(mid, Repooled, groups);
      && flat.Some?
      && (two.value.value == flat.value.value <==>
            SumDenominators(Flatten(groups)) > 0.0 ||
                Imbalance(matches, |matches| as real, |Flatten(groups)| as real) == 0.0)
  {
    TwoLevelsAgree(mid, Repooled, groups, owns, ver);
    KeptAreNotEmpty(mid, Repooled, groups);
    hide Pool, Kept, Flatten, SumDenominators, Imbalance, AllUniform, Tournament;
    if SumDenominators(Flatten(groups)) <= 0.0 {
      BalancedWhen(mid, groups, owns, ver);
    }
  }

  lemma BalancedWhen(mid: string, groups: seq<seq<Value>>, owns: seq<Ref>, ver: string)
    requires |groups| == |owns| && AllUniform(groups, mid, ver) && SumDenominators(Flatten(groups)) <= 0.0
    requires Tournament(mid, Repooled, groups, owns).Some? && Pool(mid, Repooled, Flatten(groups)).Some?
    ensures forall i :: 0 <= i < |Kept(mid, Repooled, groups)| ==> Kept(mid, Repooled, groups)[i] != []
    ensures var two, flat := Tournament(mid, Repooled, groups, owns), Pool(mid, Repooled, Flatten(groups));
      var matches := Kept(mid, Repooled, groups);
      two.value.value == flat.value.value <==> Imbalance(matches, |matches| as real, |Flatten(groups)| as real) == 0.0
  {
    var pools, rows, matches := Pools(mid, Repooled, groups, owns), Flatten(groups), Kept(mid, Repooled, groups);
    PoolsCarry(mid, Repooled, groups, owns);
    KeptAll(mid, Repooled, groups, ver);
    assert SumDenominators(pools) <= 0.0 && Pool(mid, Repooled, pools) == Tournament(mid, Repooled, groups, owns);
    hide *;
    ReportsAreValues(mid, groups, owns);
    PoolReported(mid, pools);
    PoolReported(mid, rows);
    ImbalanceIs(matches, |matches| as real, |rows| as real);
    QuotientsAgree(SumValues(pools), |matches| as real, SumValues(rows), |rows| as real);
  }

  lemma PoolReported(mid: string, vs: seq<Value>)
    requires Pool(mid, Repooled, vs).Some? && SumDenominators(vs) <= 0.0
    ensures vs != [] && Pool(mid, Repooled, vs).value.value == SumValues(vs) / |vs| as real
  {
    hide MergedLineage, SumValues, SumDenominators;
  }

  /** Without denominators the imbalance weighs each match's mean by how far its size is
      from the average one: with `m` matches and `n` rows, (n - m * |g|) * mean(g). */
  function MeanImbalance(groups: seq<seq<Value>>, m: real, n: real): real
    requires forall i :: 0 <= i < |groups| ==> groups[i] != []
  {
    if groups == [] then 0.0
    else
      var g := groups[|groups| - 1];
      var size := |g| as real;
      MeanImbalance(groups[..|groups| - 1], m, n) + (n - m * size) * (SumValues(g) / size)
  }

  lemma {:induction false} ImbalanceOfMeans(groups: seq<seq<Value>>, m: real, n: real)
    requires forall i :: 0 <= i < |groups| ==> groups[i] != [] && SumDenominators(groups[i]) <= 0.0
    ensures Imbalance(groups, m, n) == MeanImbalance(groups, m, n)
  {
    if groups != [] {
      var g := groups[|groups| - 1];
      ImbalanceOfMeans(groups[..|groups| - 1], m, n);
      Weighed(m, n, |g| as real, SumValues(g));
      hide SumValues, SumDenominators, SumNumerators, AnyDenominator, Gap;
    }
  }

  lemma Weighed(m: real, n: real, size: real, sum: real)
    requires size > 0.0
    ensures Gap(m, n, sum / size, sum) == (n - m * size) * (sum / size)
  {
    var mean := sum / size;
    assert sum == mean * size;
  }

  lemma {:induction false} SilentMatches(groups: seq<seq<Value>>)
    requires forall i :: 0 <= i < |groups| ==> DenominatorsNonNegative(groups[i])
    ensures SumDenominators(Flatten(groups)) >= 0.0
    ensures SumDenominators(Flatten(groups)) == 0.0 <==> forall i :: 0 <= i < |groups| ==>
              SumDenominators(groups[i]) == 0.0
  {
    if groups != [] {
      var n := |groups| - 1;
      assert forall i :: 0 <= i < n ==> groups[..n][i] == groups[i];
      hide SumDenominators, DenominatorsNonNegative;
      SilentMatches(groups[..n]);
      NonNegativeSum(groups[n]);
      SumsConcat(Flatten(groups[..n]), groups[n]);
      assert Flatten(groups) == Flatten(groups[..n]) + groups[n];
      hide Flatten;
      if SumDenominators(groups[n]) == 0.0 && SumDenominators(Flatten(groups[..n])) == 0.0 {
        forall i | 0 <= i < |groups| ensures SumDenominators(groups[i]) == 0.0 {
          if i < n { assert groups[..n][i] == groups[i]; }
        }
      }
    }
  }

  lemma {:induction false} KeptAmong(mid: string, rule: Rule, groups: seq<seq<Value>>)
    ensures forall g :: g in Kept(mid, rule, groups) ==> g in groups
  {
    if groups != [] {
      KeptAmong(mid, rule, groups[..|groups| - 1]);
      LastGroup(mid, rule, groups);
      hide Kept;
    }
  }

  /** With non-negative denominators that sum to zero, averages agree just when the means,
      weighed by how far each match is from the average size, cancel out. */
  lemma SilentAveragesAgreeWhen(mid: string, groups: seq<seq<Value>>, owns: seq<Ref>, ver: string)
    requires |groups| == |owns| && AllUniform(groups, mid, ver)
    requires forall i :: 0 <= i < |groups| ==> DenominatorsNonNegative(groups[i])
    requires SumDenominators(Flatten(groups)) == 0.0
    requires Tournament(mid, Repooled, groups, owns).Some?
    ensures forall i :: 0 <= i < |Kept(mid, Repooled, groups)| ==> Kept(mid, Repooled, groups)[i] != []
    ensures var two, flat := Tournament(mid, Repooled, groups, owns), Pool(mid, Repooled, Flatten(groups));
      var matches := Kept(mid, Repooled, groups);
      && flat.Some?
      && (two.value.value == flat.value.value <==>
           MeanImbalance(matches, |matches| as real, |Flatten(groups)| as real) == 0.0)
  {
    var matches := Kept(mid, Repooled, groups);
    AveragesAgreeWhen(mid, groups, owns, ver);
    SilentMatches(groups);
    KeptAmong(mid, Repooled, groups);
    hide Kept, Flatten, Imbalance, MeanImbalance, Tournament, Pool, SumDenominators, DenominatorsNonNegative;
    forall i | 0 <= i < |matches| ensures SumDenominators(matches[i]) <= 0.0 {
      assert matches[i] in groups;
    }
    ImbalanceOfMeans(matches, |matches| as real, |Flatten(groups)| as real);
  }

  lemma {:induction false} SizesAdd(groups: seq<seq<Value>>, size: nat)
    requires forall i :: 0 <= i < |groups| ==> |groups[i]| == size
    ensures |Flatten(groups)| == Product(|groups|, size)
  {
    if groups != [] {
      SizesAdd(groups[..|groups| - 1], size);
    }
  }

  function Product(n: nat, size: nat): nat {
    if n == 0 then 0 else Product(n - 1, size) + size
  }

  lemma {:induction false} ProductIs(n: nat, size: nat)
    ensures Product(n, size) as real == n as real * size as real
  {
    if n > 0 { ProductIs(n - 1, size); }
  }

  lemma {:induction false} EqualSizesBalance(groups: seq<seq<Value>>, m: real, n: real, size: nat)
    requires size > 0 && forall i :: 0 <= i < |groups| ==> |groups[i]| == size
    requires n == m * size as real
    ensures MeanImbalance(groups, m, n) == 0.0
  {
    if groups != [] {
      EqualSizesBalance(groups[..|groups| - 1], m, n, size);
      var x := SumValues(groups[|groups| - 1]) / size as real;
      assert (n - m * size as real) * x == 0.0;
    }
  }

  /** Matches of one size always agree with the flat average, denominators or not. */
  lemma EqualMatchesAgree(mid: string, groups: seq<seq<Value>>, owns: seq<Ref>, ver: string, size: nat)
    requires |groups| == |owns| && AllUniform(groups, mid, ver)
    requires forall i :: 0 <= i < |groups| ==> DenominatorsNonNegative(groups[i])
    requires forall i :: 0 <= i < |groups| ==> |groups[i]| == size || groups[i] == []
    requires Tournament(mid, Repooled, groups, owns).Some?
    ensures var flat := Pool(mid, Repooled, Flatten(groups));
      flat.Some? && Tournament(mid, Repooled, groups, owns).value.value == flat.value.value
  {
    TwoLevelsAgree(mid, Repooled, groups, owns, ver);
    SilentMatches(groups);
    hide Kept, Flatten, MeanImbalance, Tournament, Pool, SumDenominators, DenominatorsNonNegative, AllUniform;
    if SumDenominators(Flatten(groups)) == 0.0 {
      SilentAveragesAgreeWhen(mid, groups, owns, ver);
      EqualMatchesBalance(mid, groups, ver, size);
    }
  }

  lemma EqualMatchesBalance(mid: string, groups: seq<seq<Value>>, ver: string, size: nat)
    requires AllUniform(groups, mid, ver)
    requires forall i :: 0 <= i < |groups| ==> |groups[i]| == size || groups[i] == []
    ensures forall i :: 0 <= i < |Kept(mid, Repooled, groups)| ==> Kept(mid, Repooled, groups)[i] != []
    ensures var matches := Kept(mid, Repooled, groups);
      MeanImbalance(matches, |matches| as real, |Flatten(groups)| as real) == 0.0
  {
    var matches := Kept(mid, Repooled, groups);
    KeptAll(mid, Repooled, groups, ver);
    KeptAmong(mid, Repooled, groups);
    KeptAreNotEmpty(mid, Repooled, groups);
    hide *;
    forall i | 0 <= i < |matches| ensures |matches[i]| == size {
      assert matches[i] in groups;
    }
    BalanceOf(matches, size);
  }

  lemma BalanceOf(matches: seq<seq<Value>>, size: nat)
    requires forall i :: 0 <= i < |matches| ==> |matches[i]| == size && matches[i] != []
    ensures MeanImbalance(matches, |matches| as real, |Flatten(matches)| as real) == 0.0
  {
    SizesAdd(matches, size);
    ProductIs(|matches|, size);
    if matches != [] {
      assert |matches[0]| == size;
      hide *;
      EqualSizesBalance(matches, |matches| as real, |Flatten(matches)| as real, size);
    }
  }

  function Row(value: real, num: Option<real>, den: Option<real>): Value {
    Value("m", "v1", value, num, den, 0, "", true, true, [])
  }

  lemma MeanOf(rows: seq<Value>, own: Ref)
    requires rows != [] && Uniform(rows, "m", "v1") && !AnyDenominator(rows)
    ensures Pool("m", Repooled, rows).Some? && Pool("m", Repooled, rows).value.value == SumValues(rows) / |rows| as real
    ensures Pool("m", Repooled, rows).value.denominator == 0.0
  {
    UniformPublishes("m", Repooled, rows, "v1");
    NoneMeansZero(rows);
    hide MergedLineage, AnyDenominator, SumValues, SumDenominators, SumNumerators;
  }

  lemma TwoValues(a: Value, b: Value)
    ensures SumValues([a]) == a.value && SumValues([a, b]) == a.value + b.value
    ensures SumDenominators([a, b]) == Given(a.denominator) + Given(b.denominator)
  {
    OneValue(a);
    assert [a, b][..1] == [a];
  }

  /** Averages without denominators weigh matches, not rows. */
  lemma MeansOfMeansDiffer(own: Ref)
    ensures var groups := [[Row(0.0, None, None)], [Row(3.0, None, None), Row(3.0, None, None)]];
      && Tournament("m", Repooled, groups, [own, own]).Some?
      && Pool("m", Repooled, Flatten(groups)).Some?
      && Tournament("m", Repooled, groups, [own, own]).value.value == 1.5
      && Pool("m", Repooled, Flatten(groups)).value.value == 2.0
  {
    var x, y := Row(0.0, None, None), Row(3.0, None, None);
    var a, b := [x], [y, y];
    var groups := [a, b];
    TwoValues(x, y);
    TwoValues(y, y);
    MeanOf(a, own);
    MeanOf(b, own);
    MeanOf([x, y, y], own);
    SumsConcat(a, b);
    assert a + b == [x, y, y];
    TwoGroups("m", Repooled, a, b, own);
    var p, q := AsValue(Pool("m", Repooled, a).value, own), AsValue(Pool("m", Repooled, b).value, own);
    hide SumValues, SumDenominators, SumNumerators, MergedLineage, Flatten, Kept, Dropped, Pools, AnyDenominator;
    MeanOfTwo(p, q);
  }

  /** A match without a denominator takes its numerators with it: one of two against
      nothing, then three more, is a half in two levels and two when pooled at once. */
  lemma SilentMatchDrops(own: Ref)
    ensures var groups := [[Row(0.0, Some(1.0), Some(2.0))], [Row(0.0, Some(3.0), None)]];
      && Tournament("m", Rate, groups, [own, own]).Some?
      && Pool("m", Rate, Flatten(groups)).Some?
      && Tournament("m", Rate, groups, [own, own]).value.value == 0.5
      && Pool("m", Rate, Flatten(groups)).value.value == 2.0
  {
    var x, y := Row(0.0, Some(1.0), Some(2.0)), Row(0.0, Some(3.0), None);
    SumsOfOneOrTwo(x, y);
    SumsOfOneOrTwo(y, y);
    hide SumDenominators, SumNumerators, AnyDenominator, MergedLineage;
    RateOf([x]);
    RateOf([x, y]);
    UniformPublishes("m", Rate, [y], "v1");
    var p := AsValue(Pool("m", Rate, [x]).value, own);
    SumsOfOneOrTwo(p, p);
    RateOf([p]);
    hide Pool, Publishes, RateDefined;
    SecondIsSilent("m", [x], [y], own);
    assert [x] + [y] == [x, y];
  }

  lemma SumsOfOneOrTwo(x: Value, y: Value)
    ensures SumNumerators([x]) == Given(x.numerator) && SumNumerators([x, y]) == Given(x.numerator) + Given(y.numerator)
    ensures SumDenominators([x]) == Given(x.denominator)
    ensures SumDenominators([x, y]) == Given(x.denominator) + Given(y.denominator)
    ensures AnyDenominator([x]) == x.denominator.Some?
    ensures AnyDenominator([x, y]) == (x.denominator.Some? || y.denominator.Some?)
  {
    OneValue(x);
    OneValue(y);
    SumsConcat([x], [y]);
    AnyConcat([x], [y]);
    assert [x] + [y] == [x, y];
  }

  lemma RateOf(rows: seq<Value>)
    requires rows != [] && Uniform(rows, "m", "v1") && RateDefined(rows)
    ensures Publishes("m", Rate, rows) && Pool("m", Rate, rows).Some?
    ensures var a := Pool("m", Rate, rows).value;
      && a.metricId == "m" && a.version == "v1"
      && a.value == SumNumerators(rows) / SumDenominators(rows)
      && a.numerator == SumNumerators(rows) && a.denominator == SumDenominators(rows)
  {
    UniformPublishes("m", Rate, rows, "v1");
    hide MergedLineage, SumDenominators, SumNumerators, AnyDenominator;
  }

  lemma SecondIsSilent(mid: string, a: seq<Value>, b: seq<Value>, own: Ref)
    requires Publishes(mid, Rate, a) && !Publishes(mid, Rate, b)
    ensures Flatten([a, b]) == a + b && Pools(mid, Rate, [a, b], [own, own]) == [AsValue(Pool(mid, Rate, a).value, own)]
  {
    hide Pool, Publishes;
    OneGroup(mid, Rate, a, own);
    hide Pools, Flatten, AsValue, Kept, Dropped;
    assert [a, b][..1] == [a] && [own, own][..1] == [own];
    LastGroup(mid, Rate, [a, b]);
    LastPool(mid, Rate, [a, b], [own, own]);
  }

  lemma TwoGroups(mid: string, rule: Rule, a: seq<Value>, b: seq<Value>, own: Ref)
    requires Publishes(mid, rule, a) && Publishes(mid, rule, b)
    ensures Flatten([a, b]) == a + b
    ensures Pools(mid, rule, [a, b], [own, own]) ==
              [AsValue(Pool(mid, rule, a).value, own), AsValue(Pool(mid, rule, b).value, own)]
  {
    hide Pool, Publishes;
    OneGroup(mid, rule, a, own);
    hide Pools, Flatten, AsValue, Kept, Dropped;
    var groups := [a, b];
    assert groups[..1] == [a] && [own, own][..1] == [own];
    LastGroup(mid, rule, groups);
    LastPool(mid, rule, groups, [own, own]);
  }

  lemma OneGroup(mid: string, rule: Rule, a: seq<Value>, own: Ref)
    requires Publishes(mid, rule, a)
    ensures Flatten([a]) == a && Pools(mid, rule, [a], [own]) == [AsValue(Pool(mid, rule, a).value, own)]
  {
    hide Pool, Publishes, AsValue;
    LastGroup(mid, rule, [a]);
    LastPool(mid, rule, [a], [own]);
  }

  lemma MeanOfTwo(p: Value, q: Value)
    requires p.metricId == q.metricId == "m" && p.version == q.version == "v1"
    requires Given(p.denominator) == Given(q.denominator) == 0.0
    ensures Pool("m", Repooled, [p, q]).Some? && Pool("m", Repooled, [p, q]).value.value == (p.value + q.value) / 2.0
  {
    TwoValues(p, q);
    UniformPublishes("m", Repooled, [p, q], "v1");
    hide SumValues, SumDenominators, SumNumerators, MergedLineage, AnyDenominator;
  }
}
