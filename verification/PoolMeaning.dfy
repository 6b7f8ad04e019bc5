/** What a pool publishes, written out over its observations, and which rows it observes. */
module PoolMeaning {
  import opened Wrappers
  import opened Aggregation
  import opened TeamGraph

  // ---- the declared rule ----

  ghost predicate Says(text: string, phrase: string) {
    exists before, after :: text == before + phrase + after
  }

  lemma SaysIs(text: string, phrase: string)
    ensures Says(text, phrase) <==> Contains(text, phrase)
  {
    if i :| 0 <= i <= |text| && OccursAt(text, phrase, i) {
      assert text == text[..i] + phrase + text[i + |phrase|..];
    }
    if before, after :| text == before + phrase + after {
      assert OccursAt(text, phrase, |before|);
    }
  }

  /** The first phrase that the registry text holds decides the rule. */
  lemma RuleIsDeclared(text: string)
    ensures RuleOf(text) ==
      if Says(text, "sum numerator divided by sum denominator") then Rate
      else if Says(text, "never average stored percentiles") then Repooled
      else if Says(text, "max") then Largest
      else if Says(text, "sum eligible non-overlapping seconds") then Seconds
      else Rule.Total
  {
    SaysIs(text, "sum numerator divided by sum denominator");
    SaysIs(text, "never average stored percentiles");
    SaysIs(text, "max");
    SaysIs(text, "sum eligible non-overlapping seconds");
    hide Says, Contains;
  }

  // ---- sums ----

  function Sum(xs: seq<real>): real {
    if xs == [] then 0.0 else xs[0] + Sum(xs[1..])
  }

  lemma {:induction false} SumAppend(xs: seq<real>, x: real)
    ensures Sum(xs + [x]) == Sum(xs) + x
  {
    if xs == [] {
      assert [] + [x] == [x] && [x][1..] == [];
    } else {
      SumAppend(xs[1..], x);
      assert (xs + [x])[1..] == xs[1..] + [x];
    }
  }

  function Numerators(vs: seq<Value>): seq<real> {
    seq(|vs|, i requires 0 <= i < |vs| => match vs[i].numerator case Some(x) => x case None => 0.0)
  }

  function Denominators(vs: seq<Value>): seq<real> {
    seq(|vs|, i requires 0 <= i < |vs| => match vs[i].denominator case Some(x) => x case None => 0.0)
  }

  function Values(vs: seq<Value>): seq<real> {
    seq(|vs|, i requires 0 <= i < |vs| => vs[i].value)
  }

  function OpportunityCounts(vs: seq<Value>): seq<real> {
    seq(|vs|, i requires 0 <= i < |vs| => vs[i].opportunities as real)
  }

  lemma {:induction false} SumsAre(vs: seq<Value>)
    ensures SumNumerators(vs) == Sum(Numerators(vs)) && SumDenominators(vs) == Sum(Denominators(vs))
    ensures SumValues(vs) == Sum(Values(vs)) && SumOpportunities(vs) as real == Sum(OpportunityCounts(vs))
  {
    if vs != [] {
      var n := |vs| - 1;
      SumsAre(vs[..n]);
      SumAppend(Numerators(vs[..n]), Numerators(vs)[n]);
      SumAppend(Denominators(vs[..n]), Denominators(vs)[n]);
      SumAppend(Values(vs[..n]), vs[n].value);
      SumAppend(OpportunityCounts(vs[..n]), vs[n].opportunities as real);
      assert Numerators(vs) == Numerators(vs[..n]) + [Numerators(vs)[n]];
      assert Denominators(vs) == Denominators(vs[..n]) + [Denominators(vs)[n]];
      assert Values(vs) == Values(vs[..n]) + [vs[n].value];
      assert OpportunityCounts(vs) == OpportunityCounts(vs[..n]) + [vs[n].opportunities as real];
      hide Sum, Numerators, Denominators, Values, OpportunityCounts;
    }
  }

  predicate IsLargest(x: real, vs: seq<Value>) {
    (exists i :: 0 <= i < |vs| && vs[i].value == x) && forall i :: 0 <= i < |vs| ==> vs[i].value <= x
  }

  lemma {:induction false} LargestIs(vs: seq<Value>)
    requires vs != []
    ensures IsLargest(LargestOf(vs), vs)
  {
    var n := |vs| - 1;
    if n > 0 {
      LargestIs(vs[..n]);
      assert forall i :: 0 <= i < n ==> vs[..n][i] == vs[i];
      var i :| 0 <= i < n && vs[..n][i].value == LargestOf(vs[..n]);
      assert vs[i].value == LargestOf(vs[..n]);
    }
    assert vs[n].value == vs[n].value;
  }

  // ---- pools ----

  /** All observations after the first are of the metric and of the first one's version. */
  predicate Alike(mid: string, vs: seq<Value>) {
    && vs != [] && vs[0].version != ""
    && forall i :: 0 < i < |vs| ==> vs[i].metricId == mid && vs[i].version == vs[0].version
  }

  predicate HasDenominator(vs: seq<Value>) {
    (exists i :: 0 <= i < |vs| && vs[i].denominator != None) && Sum(Denominators(vs)) > 0.0
  }

  /** A metric is published just when its observations are alike and, for a rate, have a
      positive denominator. */
  lemma PublishesWhen(mid: string, rule: Rule, vs: seq<Value>)
    ensures Pool(mid, rule, vs).Some? <==> Alike(mid, vs) && (rule == Rate ==> HasDenominator(vs))
  {
    SumsAre(vs);
    hide PooledValue, PooledNumerator, PooledDenominator, MergedLineage, SumOpportunities, SumDenominators, Sum;
  }

  /** The published value, numerator and denominator under each rule, and what is taken over
      from the observations. */
  lemma PoolIs(mid: string, rule: Rule, vs: seq<Value>)
    requires Pool(mid, rule, vs).Some?
    ensures var a := Pool(mid, rule, vs).value;
      var num, den, sum := Sum(Numerators(vs)), Sum(Denominators(vs)), Sum(Values(vs));
      && vs != [] && a.metricId == mid && a.version == vs[0].version && a.eligible == |vs|
      && a.direction == vs[0].direction && a.official == vs[0].official && a.experimental == vs[0].experimental
      && a.opportunities as real == Sum(OpportunityCounts(vs))
      && match rule
         case Rate => den > 0.0 && a.value == num / den && a.numerator == num && a.denominator == den
         case Repooled =>
           && a.value == (if HasDenominator(vs) then num / den else sum / |vs| as real)
           && a.numerator == num && a.denominator == den
         case Largest => IsLargest(a.value, vs) && a.numerator == a.value && a.denominator == 0.0
         case Seconds => a.value == sum && a.numerator == sum && a.denominator == den
         case Total =>
           && a.value == sum && a.denominator == 0.0
           && a.numerator == (if exists i :: 0 <= i < |vs| && vs[i].numerator != None then num else sum)
  {
    SumsAre(vs);
    LargestIs(vs);
    hide SumNumerators, SumDenominators, SumValues, SumOpportunities, LargestOf, MergedLineage, Sum, IsLargest;
    hide Numerators, Denominators, Values, OpportunityCounts;
  }

  // ---- lineage ----

  function AllRefs(vs: seq<Value>): seq<Ref> {
    if vs == [] then [] else AllRefs(vs[..|vs| - 1]) + vs[|vs| - 1].lineage
  }

  lemma {:induction false} MergeConcat(refs: seq<Ref>, a: seq<Ref>, b: seq<Ref>)
    ensures Merge(Merge(refs, a), b) == Merge(refs, a + b)
  {
    if b == [] {
      assert a + b == a;
    } else {
      var n := |b| - 1;
      MergeConcat(refs, a, b[..n]);
      assert (a + b)[..|a + b| - 1] == a + b[..n] && (a + b)[|a + b| - 1] == b[n];
      hide HasKey;
    }
  }

  lemma {:induction false} LineageIsMerge(vs: seq<Value>)
    ensures MergedLineage(vs) == Merge([], AllRefs(vs))
  {
    if vs != [] {
      var n := |vs| - 1;
      LineageIsMerge(vs[..n]);
      MergeConcat([], AllRefs(vs[..n]), vs[n].lineage);
    }
  }

  predicate SameKey(a: Ref, b: Ref) {
    a.matchId == b.matchId && a.kind == b.kind && a.id == b.id
  }

  /** No earlier reference equals this one in match, kind and id. */
  ghost predicate IsFirst(refs: seq<Ref>, k: int) {
    0 <= k < |refs| && forall j :: 0 <= j < k ==> !SameKey(refs[j], refs[k])
  }

  /** `at` lists the positions of these references, in order. */
  ghost predicate Firsts(at: seq<int>, refs: seq<Ref>) {
    (forall j, k :: 0 <= j < k < |at| ==> at[j] < at[k]) && forall k :: k in at <==> IsFirst(refs, k)
  }

  lemma FirstInPrefix(refs: seq<Ref>, n: nat, k: int)
    requires n <= |refs|
    ensures IsFirst(refs[..n], k) <==> k < n && IsFirst(refs, k)
  {
    assert forall j :: 0 <= j < n ==> refs[..n][j] == refs[j];
    hide SameKey;
  }

  lemma LastIsFirst(refs: seq<Ref>)
    requires refs != []
    ensures IsFirst(refs, |refs| - 1) <==> !HasKey(refs[..|refs| - 1], Key(refs[|refs| - 1]))
  {
    var n := |refs| - 1;
    assert forall j :: 0 <= j < n ==> refs[..n][j] == refs[j];
    forall j | 0 <= j < n ensures SameKey(refs[j], refs[n]) <==> Key(refs[..n][j]) == Key(refs[n]) {}
    hide SameKey, Key;
  }

  lemma MergeHas(refs: seq<Ref>, k: (string, string, string))
    ensures HasKey(Merge([], refs), k) <==> HasKey(refs, k)
  {
    MergeKeeps([], refs);
    hide Merge;
  }

  lemma {:induction false} MergeFirsts(refs: seq<Ref>) returns (at: seq<int>)
    ensures Firsts(at, refs) && |at| == |Merge([], refs)|
    ensures forall k :: 0 <= k < |at| ==> 0 <= at[k] < |refs| && Merge([], refs)[k] == refs[at[k]]
  {
    if refs == [] {
      at := [];
    } else {
      var n := |refs| - 1;
      at := MergeFirsts(refs[..n]);
      assert forall k :: 0 <= k < n ==> refs[..n][k] == refs[k];
      MergeHas(refs[..n], Key(refs[n]));
      LastIsFirst(refs);
      forall k { FirstInPrefix(refs, n, k); }
      hide HasKey, IsFirst, Key;
      forall k | k in at ensures k < n {}
      if !HasKey(refs[..n], Key(refs[n])) { at := at + [n]; }
    }
  }

  /** The merged lineage lists, in order, every reference that no earlier one equals. */
  lemma LineageIsFirsts(vs: seq<Value>) returns (at: seq<int>)
    ensures Firsts(at, AllRefs(vs)) && |at| == |MergedLineage(vs)|
    ensures forall k :: 0 <= k < |at| ==> 0 <= at[k] < |AllRefs(vs)| && MergedLineage(vs)[k] == AllRefs(vs)[at[k]]
  {
    LineageIsMerge(vs);
    hide Firsts, Merge, AllRefs;
    at := MergeFirsts(AllRefs(vs));
  }

  // ---- which rows and pools are observed ----

  ghost predicate InOrder(at: seq<int>, n: int) {
    && (forall k :: 0 <= k < |at| ==> 0 <= at[k] < n)
    && forall j, k :: 0 <= j < k < |at| ==> at[j] < at[k]
  }

  /** A team's rows of a match are the players of that team in that match. */
  lemma {:induction false} RowsAreTheTeams(
    players: seq<PlayerRow>, team: string, matchId: string) returns (at: seq<int>)
    ensures InOrder(at, |players|) && |at| == |RowsOf(players, team, matchId)|
    ensures forall k :: 0 <= k < |at| ==> RowsOf(players, team, matchId)[k] == players[at[k]]
    ensures forall i :: i in at <==>
              0 <= i < |players| && players[i].teamId == team && players[i].matchId == matchId
  {
    at := [];
    if players != [] {
      var n := |players| - 1;
      at := RowsAreTheTeams(players[..n], team, matchId);
      assert forall i :: 0 <= i < n ==> players[..n][i] == players[i];
      if Plays(players[n], team, matchId) { at := at + [n]; }
    }
  }

  lemma {:induction false} InsertRowKeeps(rows: seq<PlayerRow>, p: PlayerRow)
    ensures multiset(InsertRow(rows, p)) == multiset(rows) + multiset{p}
    ensures forall x :: x in InsertRow(rows, p) ==> x in rows || x == p
  {
    hide Before;
    if rows != [] {
      var n := |rows| - 1;
      assert rows == rows[..n] + [rows[n]];
      if Before(p.accountId, rows[n].accountId) { InsertRowKeeps(rows[..n], p); }
    }
  }

  lemma {:induction false} InsertRowSorts(rows: seq<PlayerRow>, p: PlayerRow)
    requires RowsSorted(rows)
    ensures RowsSorted(InsertRow(rows, p))
  {
    hide Before;
    if rows != [] {
      var n := |rows| - 1;
      if Before(p.accountId, rows[n].accountId) {
        InsertRowSorts(rows[..n], p);
        InsertRowKeeps(rows[..n], p);
        BeforeIrreflexive(p.accountId, rows[n].accountId);
        var t := InsertRow(rows[..n], p);
        forall x | x in rows[..n] ensures !Before(rows[n].accountId, x.accountId) {
          var i :| 0 <= i < n && rows[..n][i] == x;
          assert rows[i] == x;
        }
        forall k | 0 <= k < |t| ensures !Before(rows[n].accountId, t[k].accountId) {
          assert t[k] in t;
        }
      } else {
        forall i | 0 <= i < n ensures !Before(p.accountId, rows[i].accountId) {
          NotBeforeTransitive(rows[i].accountId, rows[n].accountId, p.accountId);
        }
      }
    }
  }

  ghost predicate RowsSorted(rows: seq<PlayerRow>) {
    forall i, j :: 0 <= i < j < |rows| ==> !Before(rows[j].accountId, rows[i].accountId)
  }

  lemma BeforeIrreflexive(a: string, b: string)
    requires Before(a, b)
    ensures !Before(b, a)
  {
    if Before(b, a) { BeforeTransitive(a, b, a); NeverBeforeItself(a); }
  }

  lemma NotBeforeTransitive(a: string, b: string, c: string)
    requires !Before(b, a) && !Before(c, b)
    ensures !Before(c, a)
  {
    if Before(c, a) {
      BeforeTotal(a, b);
      if a != b { BeforeTransitive(c, a, b); }
    }
  }

  /** The rows of a pool are those of the match, by account. */
  lemma {:induction false} RowsAreSorted(rows: seq<PlayerRow>)
    ensures RowsSorted(SortRows(rows)) && multiset(SortRows(rows)) == multiset(rows)
  {
    if rows != [] {
      var n := |rows| - 1;
      RowsAreSorted(rows[..n]);
      InsertRowSorts(SortRows(rows[..n]), rows[n]);
      InsertRowKeeps(SortRows(rows[..n]), rows[n]);
      assert rows == rows[..n] + [rows[n]];
      hide InsertRow, RowsSorted;
    }
  }

  /** Observed of a metric is what each row publishes of it. */
  lemma {:induction false} ObservedIsPublished(rows: seq<PlayerRow>, mid: string) returns (at: seq<int>)
    ensures InOrder(at, |rows|) && |at| == |Observations(rows, mid)|
    ensures forall i :: i in at <==> 0 <= i < |rows| && mid in rows[i].metrics
    ensures forall k :: 0 <= k < |at| ==> at[k] in at && Observations(rows, mid)[k] == rows[at[k]].metrics[mid]
  {
    at := [];
    if rows != [] {
      var n := |rows| - 1;
      at := ObservedIsPublished(rows[..n], mid);
      assert forall i :: 0 <= i < n ==> rows[..n][i] == rows[i];
      if mid in rows[n].metrics { at := at + [n]; }
    }
  }

  /** The pool of a match read as one observation: every figure present. */
  predicate ReadsAs(v: Value, a: Aggregate) {
    && v.metricId == a.metricId && v.version == a.version && v.value == a.value
    && v.numerator == Some(a.numerator) && v.denominator == Some(a.denominator) && v.opportunities == a.opportunities
    && v.direction == a.direction && v.official == a.official && v.experimental == a.experimental
    && v.lineage == a.lineage
  }

  /** A tournament pools, match by match, what each match of the team publishes. */
  lemma {:induction false} ChildrenArePublished(byMatch: ByMatch, ids: seq<string>, mid: string) returns (at: seq<int>)
    ensures InOrder(at, |ids|) && |at| == |ChildValues(byMatch, ids, mid)|
    ensures forall i :: i in at <==>
              0 <= i < |ids| && ids[i] in byMatch && byMatch[ids[i]].Some? && mid in byMatch[ids[i]].value.metrics
    ensures forall k :: 0 <= k < |at| ==>
              at[k] in at && ReadsAs(ChildValues(byMatch, ids, mid)[k], byMatch[ids[at[k]]].value.metrics[mid])
  {
    at := [];
    if ids != [] {
      var n := |ids| - 1;
      at := ChildrenArePublished(byMatch, ids[..n], mid);
      assert forall i :: 0 <= i < n ==> ids[..n][i] == ids[i];
      if Holds(byMatch, ids[n], mid) { at := at + [n]; }
    }
  }
}
