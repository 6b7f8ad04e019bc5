/** The rules of the engine read off the fed inputs alone: how long the match is, and the
    label of every second from that of the second before it. */
module EngineRules {
  import opened Wrappers
  import opened Phases
  import opened EngineSpec
  import opened EngineTiling
  import opened EngineEvidence
  import opened EngineCausality

  // ---- what the inputs hold ----

  predicate Seen(x: Input, kind: Kind, lo: int, hi: int) {
    x.kind == kind && 0 <= x.second && lo <= x.second <= hi
  }

  ghost predicate Once(inputs: seq<Input>, kind: Kind, lo: int, hi: int) {
    exists i :: 0 <= i < |inputs| && Seen(inputs[i], kind, lo, hi)
  }

  ghost predicate Twice(inputs: seq<Input>, kind: Kind, lo: int, hi: int) {
    exists i, j :: 0 <= i < j < |inputs| && Seen(inputs[i], kind, lo, hi) && Seen(inputs[j], kind, lo, hi)
  }

  ghost predicate Fed(inputs: seq<Input>, s: int) {
    exists i :: 0 <= i < |inputs| && inputs[i].second == s
  }

  /** A death names its victim, and damage its attacker when that is known. */
  predicate Named(x: Input, lo: int, hi: int) {
    Seen(x, HeroDeath, lo, hi) || (Seen(x, Damage, lo, hi) && x.account != "")
  }

  /** Positions of inputs that name different accounts. */
  ghost predicate Apart(inputs: seq<Input>, at: seq<int>, lo: int, hi: int) {
    && (forall k :: 0 <= k < |at| ==> 0 <= at[k] < |inputs| && Named(inputs[at[k]], lo, hi))
    && (forall j, k :: 0 <= j < k < |at| ==> inputs[at[j]].account != inputs[at[k]].account)
  }

  ghost predicate SixNamed(inputs: seq<Input>, lo: int, hi: int) {
    exists at: seq<int> :: |at| == 6 && Apart(inputs, at, lo, hi)
  }

  // ---- the windows of the log say the same ----

  lemma {:induction false} CountedOnce(inputs: seq<Input>, kind: Kind, lo: int, hi: int)
    requires lo >= 0
    ensures Count(inputs, kind, lo, hi) > 0 <==> Once(inputs, kind, lo, hi)
  {
    if inputs != [] {
      var n := |inputs| - 1;
      CountedOnce(inputs[..n], kind, lo, hi);
      assert forall i :: 0 <= i < n ==> inputs[..n][i] == inputs[i];
      if Once(inputs, kind, lo, hi) && !Seen(inputs[n], kind, lo, hi) {
        var i :| 0 <= i < |inputs| && Seen(inputs[i], kind, lo, hi);
        assert Seen(inputs[..n][i], kind, lo, hi);
      }
      if Once(inputs[..n], kind, lo, hi) {
        var i :| 0 <= i < n && Seen(inputs[..n][i], kind, lo, hi);
        assert Seen(inputs[i], kind, lo, hi);
      }
    }
  }

  lemma {:induction false} CountedTwice(inputs: seq<Input>, kind: Kind, lo: int, hi: int)
    requires lo >= 0
    ensures Count(inputs, kind, lo, hi) >= 2 <==> Twice(inputs, kind, lo, hi)
  {
    if inputs != [] {
      var n := |inputs| - 1;
      CountedTwice(inputs[..n], kind, lo, hi);
      CountedOnce(inputs[..n], kind, lo, hi);
      TwiceNext(inputs, kind, lo, hi);
      hide Twice, Once;
    }
  }

  lemma TwiceNext(inputs: seq<Input>, kind: Kind, lo: int, hi: int)
    requires inputs != []
    ensures var n := |inputs| - 1;
      Twice(inputs, kind, lo, hi) <==>
        Twice(inputs[..n], kind, lo, hi) || (Once(inputs[..n], kind, lo, hi) && Seen(inputs[n], kind, lo, hi))
  {
    hide Seen;
    var n := |inputs| - 1;
    assert forall i :: 0 <= i < n ==> inputs[..n][i] == inputs[i];
    if Twice(inputs, kind, lo, hi) {
      var i, j :| 0 <= i < j < |inputs| && Seen(inputs[i], kind, lo, hi) && Seen(inputs[j], kind, lo, hi);
      assert Seen(inputs[..n][i], kind, lo, hi);
      if j < n { assert Seen(inputs[..n][j], kind, lo, hi); }
    }
    if Twice(inputs[..n], kind, lo, hi) {
      var i, j :| 0 <= i < j < n && Seen(inputs[..n][i], kind, lo, hi) && Seen(inputs[..n][j], kind, lo, hi);
      assert Seen(inputs[i], kind, lo, hi) && Seen(inputs[j], kind, lo, hi);
    }
    if Once(inputs[..n], kind, lo, hi) {
      var i :| 0 <= i < n && Seen(inputs[..n][i], kind, lo, hi);
      assert Seen(inputs[i], kind, lo, hi);
    }
  }

  lemma FightersAreNamed(inputs: seq<Input>, lo: int, hi: int, a: string)
    requires lo >= 0
    ensures a in Fighters(inputs, lo, hi) <==>
      exists i :: 0 <= i < |inputs| && Named(inputs[i], lo, hi) && inputs[i].account == a
  {
    if a in Fighters(inputs, lo, hi) {
      var x :| x in inputs && Fights(x) && lo <= x.second <= hi && x.account == a;
      var i :| 0 <= i < |inputs| && inputs[i] == x;
      assert Named(inputs[i], lo, hi);
    }
  }

  /** As many positions with different accounts as the fighters number, and no more. */
  lemma {:induction false} PickApart(inputs: seq<Input>, lo: int, hi: int, n: nat) returns (at: seq<int>)
    requires lo >= 0 && n <= |Fighters(inputs, lo, hi)|
    ensures |at| == n && Apart(inputs, at, lo, hi)
  {
    if n == 0 {
      at := [];
    } else {
      at := PickApart(inputs, lo, hi, n - 1);
      var fighters := Fighters(inputs, lo, hi);
      var used := set k | 0 <= k < |at| :: inputs[at[k]].account;
      AccountsApart(inputs, at, lo, hi, used);
      FewLeaveOne(used, fighters);
      hide Fighters;
      var a :| a in fighters && a !in used;
      FightersAreNamed(inputs, lo, hi, a);
      var i :| 0 <= i < |inputs| && Named(inputs[i], lo, hi) && inputs[i].account == a;
      at := at + [i];
    }
  }

  lemma FewLeaveOne<T>(a: set<T>, b: set<T>)
    requires |a| < |b|
    ensures exists x :: x in b && x !in a
  {
    if forall x :: x in b ==> x in a {
      SmallerSubset(b, a);
    }
  }

  lemma SmallerSubset<T>(a: set<T>, b: set<T>)
    requires a <= b
    ensures |a| <= |b|
  {
    assert b == a + (b - a) && |b| == |a| + |b - a|;
  }

  lemma {:induction false} AccountsApart(inputs: seq<Input>, at: seq<int>, lo: int, hi: int, accounts: set<string>)
    requires lo >= 0 && Apart(inputs, at, lo, hi)
    requires accounts == set k | 0 <= k < |at| :: inputs[at[k]].account
    ensures |accounts| == |at| && accounts <= Fighters(inputs, lo, hi)
  {
    if at != [] {
      var n := |at| - 1;
      var fewer := set k | 0 <= k < n :: inputs[at[..n][k]].account;
      assert forall k :: 0 <= k < n ==> at[..n][k] == at[k];
      AccountsApart(inputs, at[..n], lo, hi, fewer);
      FightersAreNamed(inputs, lo, hi, inputs[at[n]].account);
      hide Fighters, Named;
      assert accounts == fewer + {inputs[at[n]].account};
    }
  }

  lemma SixFighters(inputs: seq<Input>, lo: int, hi: int)
    requires lo >= 0
    ensures |Fighters(inputs, lo, hi)| >= 6 <==> SixNamed(inputs, lo, hi)
  {
    if |Fighters(inputs, lo, hi)| >= 6 {
      var at := PickApart(inputs, lo, hi, 6);
    } else if SixNamed(inputs, lo, hi) {
      var at: seq<int> :| |at| == 6 && Apart(inputs, at, lo, hi);
      var accounts := set k | 0 <= k < |at| :: inputs[at[k]].account;
      AccountsApart(inputs, at, lo, hi, accounts);
      SmallerSubset(accounts, Fighters(inputs, lo, hi));
    }
  }

  lemma {:induction false} KeptMembers(inputs: seq<Input>, end: int)
    ensures forall x :: x in Within(inputs, end) <==> x in inputs && 0 <= x.second < end
  {
    if inputs != [] {
      var n := |inputs| - 1;
      KeptMembers(inputs[..n], end);
      assert inputs == inputs[..n] + [inputs[n]];
    }
  }

  lemma {:induction false} KeptCount(inputs: seq<Input>, end: int, kind: Kind, lo: int, hi: int)
    requires hi < end
    ensures Count(Within(inputs, end), kind, lo, hi) == Count(inputs, kind, Max(0, lo), hi)
  {
    if inputs != [] {
      var n := |inputs| - 1;
      KeptCount(inputs[..n], end, kind, lo, hi);
      CountAppend(Within(inputs[..n], end), inputs[n], kind, lo, hi);
      assert Within(inputs[..n], end) + [] == Within(inputs[..n], end);
    }
  }

  lemma KeptFighters(inputs: seq<Input>, end: int, lo: int, hi: int)
    requires hi < end
    ensures Fighters(Within(inputs, end), lo, hi) == Fighters(inputs, Max(0, lo), hi)
  {
    KeptMembers(inputs, end);
    hide Within;
  }

  lemma {:induction false} EvidenceSince(log: Log, b: int)
    requires b >= 0
    ensures LastEvidence(log) >= b <==> exists x :: x in log && DecisiveRelevant(x.kind) && x.second >= b
  {
    if log != [] {
      var n := |log| - 1;
      EvidenceSince(log[..n], b);
      assert log == log[..n] + [log[n]];
    }
  }

  // ---- rules over the inputs up to a second ----

  ghost predicate Stirs(inputs: seq<Input>, lo: int, hi: int) {
    Once(inputs, HeroDeath, lo, hi) || Once(inputs, HeroBuyback, lo, hi) ||
    Once(inputs, TowerDeath, lo, hi) || Once(inputs, RaxDeath, lo, hi)
  }

  lemma FromZero(inputs: seq<Input>, kind: Kind, lo: int, hi: int)
    ensures Once(inputs, kind, Max(0, lo), hi) <==> Once(inputs, kind, lo, hi)
    ensures Twice(inputs, kind, Max(0, lo), hi) <==> Twice(inputs, kind, lo, hi)
  {
    assert forall x :: Seen(x, kind, Max(0, lo), hi) <==> Seen(x, kind, lo, hi);
    hide Seen;
  }

  lemma SixFromZero(inputs: seq<Input>, lo: int, hi: int)
    ensures SixNamed(inputs, Max(0, lo), hi) <==> SixNamed(inputs, lo, hi)
  {
    assert forall x :: Named(x, Max(0, lo), hi) <==> Named(x, lo, hi);
    hide Named;
    forall at: seq<int> ensures Apart(inputs, at, Max(0, lo), hi) <==> Apart(inputs, at, lo, hi) {}
  }

  lemma KeptOnce(inputs: seq<Input>, end: int, kind: Kind, lo: int, hi: int)
    requires hi < end
    ensures Count(Within(inputs, end), kind, lo, hi) > 0 <==> Once(inputs, kind, lo, hi)
    ensures Count(Within(inputs, end), kind, lo, hi) >= 2 <==> Twice(inputs, kind, lo, hi)
  {
    KeptCount(inputs, end, kind, lo, hi);
    CountedOnce(inputs, kind, Max(0, lo), hi);
    CountedTwice(inputs, kind, Max(0, lo), hi);
    FromZero(inputs, kind, lo, hi);
    hide *;
  }

  lemma KeptGuards(inputs: seq<Input>, end: int, s: int)
    requires s < end
    ensures var log := Within(inputs, end);
      && (EntersMidgame(log, s) <==> Once(inputs, TowerDeath, s, s))
      && (EntersDecisive(log, s) <==>
            || Twice(inputs, HeroBuyback, s - 119, s)
            || Once(inputs, RaxDeath, s, s)
            || (SixNamed(inputs, s - 20, s) && Twice(inputs, HeroDeath, s - 30, s)))
  {
    KeptOnce(inputs, end, TowerDeath, s, s);
    KeptOnce(inputs, end, HeroBuyback, s - 119, s);
    KeptOnce(inputs, end, RaxDeath, s, s);
    KeptOnce(inputs, end, HeroDeath, s - 30, s);
    KeptFighters(inputs, end, s - 20, s);
    SixFighters(inputs, Max(0, s - 20), s);
    SixFromZero(inputs, s - 20, s);
    hide Count, Fighters, Within, Once, Twice, SixNamed;
  }

  lemma KeptQuiet(inputs: seq<Input>, end: int, s: int)
    requires 0 <= s < end && (forall i :: 0 <= i < |inputs| ==> inputs[i].second <= s)
    requires LastEvidence(Within(inputs, end)) >= 0
    ensures Quiet(Within(inputs, end), s) <==> !Stirs(inputs, s - 29, s)
  {
    var log, b := Within(inputs, end), Max(0, s - 29);
    EvidenceSince(log, b);
    EvidenceSince(log, 0);
    KeptMembers(inputs, end);
    hide LastEvidence, Within, Once, Twice;
    if x :| x in log && DecisiveRelevant(x.kind) && x.second >= b {
      var i :| 0 <= i < |inputs| && inputs[i] == x;
      StirredBy(inputs, i, s - 29, s);
    }
    if Stirs(inputs, s - 29, s) {
      var x := Stirrer(inputs, s - 29, s);
      assert x in log && x.second >= b;
    }
  }

  lemma StirredBy(inputs: seq<Input>, i: nat, lo: int, hi: int)
    requires i < |inputs| && DecisiveRelevant(inputs[i].kind) && 0 <= inputs[i].second && lo <= inputs[i].second <= hi
    ensures Stirs(inputs, lo, hi)
  {
    assert Seen(inputs[i], inputs[i].kind, lo, hi);
  }

  lemma Stirrer(inputs: seq<Input>, lo: int, hi: int) returns (x: Input)
    requires Stirs(inputs, lo, hi)
    ensures x in inputs && DecisiveRelevant(x.kind) && 0 <= x.second && lo <= x.second <= hi
  {
    var kind := if Once(inputs, HeroDeath, lo, hi) then HeroDeath
                else if Once(inputs, HeroBuyback, lo, hi) then HeroBuyback
                else if Once(inputs, TowerDeath, lo, hi) then TowerDeath else RaxDeath;
    var i :| 0 <= i < |inputs| && Seen(inputs[i], kind, lo, hi);
    x := inputs[i];
  }

  // ---- Decisive is entered on evidence ----

  ghost predicate Earned(st: State) {
    && (forall x :: x in st.log ==> x.second >= 0)
    && (st.current == Decisive ==> LastEvidence(st.log) >= 0)
  }

  lemma {:induction false} CountedSomewhere(log: Log, kind: Kind, lo: int, hi: int)
    requires Count(log, kind, lo, hi) > 0
    ensures exists x :: x in log && x.kind == kind
  {
    var n := |log| - 1;
    if log[n].kind == kind {
      assert log[n] in log;
    } else {
      CountedSomewhere(log[..n], kind, lo, hi);
    }
  }

  lemma EntryIsEarned(log: Log, s: int)
    requires EntersDecisive(log, s) && forall x :: x in log ==> x.second >= 0
    ensures LastEvidence(log) >= 0
  {
    EvidenceSince(log, 0);
    if Count(log, HeroBuyback, s - 119, s) > 0 {
      CountedSomewhere(log, HeroBuyback, s - 119, s);
    } else if Count(log, RaxDeath, s, s) > 0 {
      CountedSomewhere(log, RaxDeath, s, s);
    } else {
      CountedSomewhere(log, HeroDeath, s - 30, s);
    }
  }

  lemma FinalizeStaysEarned(st: State, s: int)
    requires Earned(st)
    ensures Earned(FinalizeSecond(st, s))
  {
    hide EntersDecisive, EntersMidgame, Quiet, LastEvidence;
    if EntersDecisive(st.log, s) { EntryIsEarned(st.log, s); }
  }

  lemma RecordStaysEarned(st: State, x: Input)
    requires Earned(st) && x.second >= 0
    ensures Earned(Record(st, x))
  {
    hide LastEvidence, BearsEvidence;
    LastEvidenceAppend(st.log, x);
    assert forall y :: y in st.log + [x] <==> y in st.log || y == x;
  }

  lemma FeedStaysEarned(st: State, gameEnd: int, x: Input)
    requires Earned(st)
    ensures Earned(FeedStep(st, gameEnd, x))
  {
    FinalizeStaysEarned(st, st.lastSecond);
    var advanced := Advance(st, x);
    assert Earned(advanced) by { hide FinalizeSecond, LastEvidence; }
    hide FinalizeSecond, Record, Earned;
    if x.second >= 0 { RecordStaysEarned(advanced, x); }
  }

  lemma {:induction false} RunStaysEarned(st: State, gameEnd: int, inputs: seq<Input>)
    requires Earned(st)
    ensures Earned(Run(st, gameEnd, inputs))
    decreases |inputs|
  {
    hide Earned, FeedStep;
    if inputs != [] {
      FeedStaysEarned(st, gameEnd, inputs[0]);
      RunStaysEarned(FeedStep(st, gameEnd, inputs[0]), gameEnd, inputs[1..]);
    }
  }

  // ---- the first fall of the ancient ----

  /** The second of the first ancient death inside the match. */
  function FirstFall(inputs: seq<Input>, gameEnd: int): Option<int> {
    if inputs == [] then None
    else
      var x := inputs[|inputs| - 1];
      var before := FirstFall(inputs[..|inputs| - 1], gameEnd);
      if before.Some? then before else if Seen(x, AncientDeath, 0, gameEnd) then Some(x.second) else None
  }

  lemma FeedFalls(st: State, gameEnd: int, x: Input)
    requires st.ended ==> st.ancient.Some?
    ensures var st' := FeedStep(st, gameEnd, x);
      && (st'.ended ==> st'.ancient.Some?)
      && st'.ancient == if st.ancient.Some? then st.ancient
                        else if Seen(x, AncientDeath, 0, gameEnd) then Some(x.second)
                        else None
  {
    hide Decide;
  }

  lemma {:induction false} RunFalls(gameEnd: int, inputs: seq<Input>)
    ensures var st := Run(INITIAL, gameEnd, inputs);
      st.ancient == FirstFall(inputs, gameEnd) && (st.ended ==> st.ancient.Some?)
  {
    if inputs != [] {
      var n := |inputs| - 1;
      RunFalls(gameEnd, inputs[..n]);
      RunSplit(INITIAL, gameEnd, inputs[..n], [inputs[n]]);
      assert inputs == inputs[..n] + [inputs[n]];
      FeedFalls(Run(INITIAL, gameEnd, inputs[..n]), gameEnd, inputs[n]);
      hide FeedStep, Seen;
    }
  }

  lemma OnceNext(inputs: seq<Input>, kind: Kind, lo: int, hi: int)
    requires inputs != []
    ensures var n := |inputs| - 1;
      Once(inputs, kind, lo, hi) <==> Once(inputs[..n], kind, lo, hi) || Seen(inputs[n], kind, lo, hi)
  {
    hide Seen;
    var n := |inputs| - 1;
    assert forall i :: 0 <= i < n ==> inputs[..n][i] == inputs[i];
    if Once(inputs[..n], kind, lo, hi) {
      var i :| 0 <= i < n && Seen(inputs[..n][i], kind, lo, hi);
      assert Seen(inputs[i], kind, lo, hi);
    }
    if Once(inputs, kind, lo, hi) && !Seen(inputs[n], kind, lo, hi) {
      var i :| 0 <= i < |inputs| && Seen(inputs[i], kind, lo, hi);
      assert Seen(inputs[..n][i], kind, lo, hi);
    }
  }

  lemma OnceWider(inputs: seq<Input>, kind: Kind, lo: int, hi: int, hi': int)
    requires hi <= hi'
    ensures Once(inputs, kind, lo, hi) ==> Once(inputs, kind, lo, hi')
  {
    assert forall x :: Seen(x, kind, lo, hi) ==> Seen(x, kind, lo, hi');
    hide Seen;
  }

  lemma LastIsLatest(inputs: seq<Input>, kind: Kind, at: int)
    requires inputs != [] && NonDecreasing(inputs) && Once(inputs[..|inputs| - 1], kind, at, at)
    ensures inputs[|inputs| - 1].second >= at
  {
    var n := |inputs| - 1;
    var i :| 0 <= i < n && Seen(inputs[..n][i], kind, at, at);
    assert inputs[i].second <= inputs[n].second;
  }

  lemma {:induction false} FallIsFirst(inputs: seq<Input>, gameEnd: int)
    requires NonDecreasing(inputs)
    ensures var f := FirstFall(inputs, gameEnd);
      if f.None? then !Once(inputs, AncientDeath, 0, gameEnd)
      else 0 <= f.value <= gameEnd && Once(inputs, AncientDeath, f.value, f.value)
           && !Once(inputs, AncientDeath, 0, f.value - 1)
  {
    if inputs != [] {
      var n := |inputs| - 1;
      FallIsFirst(inputs[..n], gameEnd);
      OnceNext(inputs, AncientDeath, 0, gameEnd);
      var f, before := FirstFall(inputs, gameEnd), FirstFall(inputs[..n], gameEnd);
      if f.Some? {
        OnceNext(inputs, AncientDeath, f.value, f.value);
        OnceNext(inputs, AncientDeath, 0, f.value - 1);
        if before.Some? {
          LastIsLatest(inputs, AncientDeath, f.value);
        } else {
          OnceWider(inputs[..n], AncientDeath, 0, f.value - 1, gameEnd);
        }
        hide Once;
      }
    }
  }

  // ---- the state that settles a second ----

  /** The state after all inputs up to second `s`. */
  ghost function StateAt(gameEnd: int, inputs: seq<Input>, s: int): State {
    Run(INITIAL, gameEnd, UpTo(inputs, s))
  }

  ghost function Label(gameEnd: int, inputs: seq<Input>, t: int): Option<Phase> {
    LabelAt(Bounds(Replay(gameEnd, inputs).intervals), t)
  }

  /** The label of a second is the one its settling state gives it. */
  lemma SettledIs(gameEnd: int, inputs: seq<Input>, s: int)
    requires LegalRun(gameEnd, inputs) && 0 <= s <= gameEnd
    ensures var st := StateAt(gameEnd, inputs, s);
      && Invariant(st) && st.lastSecond <= s
      && Label(gameEnd, inputs, s) == SettledLabel(FinalizeSecond(st, st.lastSecond), s)
  {
    UpToIsPrefix(inputs, s);
    var past, later := UpTo(inputs, s), inputs[|UpTo(inputs, s)|..];
    assert inputs == past + later;
    RunSplit(INITIAL, gameEnd, past, later);
    PastIsOpenToLater(gameEnd, past, later, s);
    hide Invariant, Continues, UpTo, EndStep, SettledLabel;
    LaterInputsAreIrrelevant(Run(INITIAL, gameEnd, past), gameEnd, later, s);
  }

  /** A second left behind already has its label in the state. */
  lemma LeftBehind(gameEnd: int, inputs: seq<Input>, s: int, t: int)
    requires LegalRun(gameEnd, inputs) && 0 <= t <= gameEnd && t < s
    requires var st := StateAt(gameEnd, inputs, s); !st.ended && t < st.lastSecond
    ensures Label(gameEnd, inputs, t) == SettledLabel(StateAt(gameEnd, inputs, s), t)
  {
    UpToIsPrefix(inputs, s);
    var past, later := UpTo(inputs, s), inputs[|UpTo(inputs, s)|..];
    assert inputs == past + later;
    RunSplit(INITIAL, gameEnd, past, later);
    PastIsOpenToLater(gameEnd, past, later, s);
    hide Invariant, Continues, UpTo, EndStep, SettledLabel;
    var st, last := Run(INITIAL, gameEnd, past), Run(INITIAL, gameEnd, inputs);
    RunKeepsLabel(st, gameEnd, later, t);
    RunInvariant(gameEnd, inputs);
    AncientInTime(INITIAL, gameEnd, inputs);
    EndPublishes(last, gameEnd, t);
    LastFinalizeKeepsLabel(last, t);
  }

  lemma OpenLabel(st: State, t: int)
    requires OpenInvariant(st) && t >= 0 && t >= st.currentStart
    ensures SettledLabel(st, t) == Some(st.current) && st.currentStart >= 0 && Official(st.current)
  {
    var s := Snapshot(st, st.currentStart + 1);
    TilingOrdered(s, 0, st.currentStart + 1);
    assert s[|st.intervals|] == Open(st, st.currentStart + 1);
    assert |st.intervals| > 0 ==> s[0].end <= s[|st.intervals|].start;
    if st.currentStart > 0 {
      ClosedPartTiles(st);
      LabelDefined(Bounds(st.intervals), 0, st.currentStart, t);
    }
    LastIsOfficial(st);
  }

  lemma LastIsOfficial(st: State)
    requires OpenInvariant(st)
    ensures Official(st.current)
  {
    var s := Snapshot(st, st.currentStart + 1);
    assert s[|s| - 1] == Open(st, st.currentStart + 1);
  }

  lemma FinalizeOpens(st: State)
    requires OpenInvariant(st) && st.ancient.None?
    ensures var fin := FinalizeSecond(st, st.lastSecond);
      OpenInvariant(fin.(lastSecond := st.lastSecond + 1)) && (st.lastSecond >= 0 ==> fin.currentStart <= st.lastSecond)
  {
    FinalizeKeepsInvariant(st, st.lastSecond + 1);
    hide Shape, Decide;
  }

  // ---- the prefix holds the same windows ----

  lemma SameOnce(past: seq<Input>, inputs: seq<Input>, s: int, kind: Kind, lo: int, hi: int)
    requires PastOf(past, inputs, s) && hi <= s
    ensures Once(past, kind, lo, hi) <==> Once(inputs, kind, lo, hi)
    ensures Twice(past, kind, lo, hi) <==> Twice(inputs, kind, lo, hi)
  {
    if i :| 0 <= i < |past| && Seen(past[i], kind, lo, hi) {
      assert Seen(inputs[i], kind, lo, hi);
    }
    if i :| 0 <= i < |inputs| && Seen(inputs[i], kind, lo, hi) {
      assert Seen(past[i], kind, lo, hi);
    }
    SameTwice(past, inputs, s, kind, lo, hi);
  }

  lemma SameTwice(past: seq<Input>, inputs: seq<Input>, s: int, kind: Kind, lo: int, hi: int)
    requires PastOf(past, inputs, s) && hi <= s
    ensures Twice(past, kind, lo, hi) <==> Twice(inputs, kind, lo, hi)
  {
    if i, j :| 0 <= i < j < |past| && Seen(past[i], kind, lo, hi) && Seen(past[j], kind, lo, hi) {
      assert Seen(inputs[i], kind, lo, hi) && Seen(inputs[j], kind, lo, hi);
    }
    if i, j :| 0 <= i < j < |inputs| && Seen(inputs[i], kind, lo, hi) && Seen(inputs[j], kind, lo, hi) {
      assert Seen(past[i], kind, lo, hi) && Seen(past[j], kind, lo, hi);
    }
  }

  lemma SameSix(past: seq<Input>, inputs: seq<Input>, s: int, lo: int)
    requires PastOf(past, inputs, s)
    ensures SixNamed(past, lo, s) <==> SixNamed(inputs, lo, s)
  {
    assert forall i :: 0 <= i < |inputs| && Named(inputs[i], lo, s) ==> i < |past| && past[i] == inputs[i];
    hide Named;
    forall at: seq<int> ensures Apart(past, at, lo, s) <==> Apart(inputs, at, lo, s) {
      if Apart(inputs, at, lo, s) {
        forall k | 0 <= k < |at| ensures 0 <= at[k] < |past| && past[at[k]] == inputs[at[k]] {
          assert Named(inputs[at[k]], lo, s);
        }
      }
    }
  }

  ghost predicate PastOf(past: seq<Input>, inputs: seq<Input>, s: int) {
    && past <= inputs
    && (forall i :: 0 <= i < |past| ==> past[i].second <= s)
    && (forall i :: |past| <= i < |inputs| ==> inputs[i].second > s)
  }

  lemma UpToIsPast(inputs: seq<Input>, s: int)
    requires NonDecreasing(inputs)
    ensures PastOf(UpTo(inputs, s), inputs, s) && NonDecreasing(UpTo(inputs, s))
  {
    UpToIsPrefix(inputs, s);
    hide UpTo;
  }

  // ---- the state at a second of the match ----

  lemma EligibleIs(gameEnd: int, inputs: seq<Input>)
    requires LegalRun(gameEnd, inputs)
    ensures Replay(gameEnd, inputs).eligibleSeconds == Eligible(FirstFall(inputs, gameEnd), gameEnd)
  {
    hide *;
    RunFalls(gameEnd, inputs);
    WholeRunCites(gameEnd, inputs);
    EndCites(Run(INITIAL, gameEnd, inputs), gameEnd, inputs);
    ReplayIs(gameEnd, inputs);
  }

  lemma FallOfPast(gameEnd: int, inputs: seq<Input>, s: int)
    requires NonDecreasing(inputs) && 0 <= s <= gameEnd
    ensures var fall := FirstFall(UpTo(inputs, s), gameEnd);
      && (fall.Some? <==> Once(inputs, AncientDeath, 0, s))
      && (fall.Some? ==> 0 <= fall.value <= s && Once(inputs, AncientDeath, fall.value, fall.value))
  {
    var past := UpTo(inputs, s);
    UpToIsPast(inputs, s);
    FallIsFirst(past, gameEnd);
    hide UpTo, FirstFall, PastOf, Once;
    SameOnce(past, inputs, s, AncientDeath, 0, s);
    OnceWider(past, AncientDeath, 0, s, gameEnd);
    var fall := FirstFall(past, gameEnd);
    if fall.Some? {
      OnceBounded(past, inputs, s, fall.value);
      SameOnce(past, inputs, s, AncientDeath, fall.value, fall.value);
      OnceWithin(inputs, fall.value, 0, s);
    }
  }

  lemma FallsNoLater(gameEnd: int, inputs: seq<Input>, at: int)
    requires NonDecreasing(inputs) && 0 <= at <= gameEnd && Once(inputs, AncientDeath, at, at)
    ensures FirstFall(inputs, gameEnd).Some? && FirstFall(inputs, gameEnd).value <= at
  {
    FallIsFirst(inputs, gameEnd);
    hide FirstFall, Once;
    OnceWithin(inputs, at, 0, gameEnd);
    if FirstFall(inputs, gameEnd).Some? { OnceWithin(inputs, at, 0, FirstFall(inputs, gameEnd).value - 1); }
  }

  /** While the match lasts the ancient stands, or falls in this very second. */
  lemma FallsNow(gameEnd: int, inputs: seq<Input>, s: int)
    requires LegalRun(gameEnd, inputs) && 0 <= s < Replay(gameEnd, inputs).eligibleSeconds
    ensures s <= gameEnd
    ensures var fall := FirstFall(UpTo(inputs, s), gameEnd);
      && (fall.Some? <==> Once(inputs, AncientDeath, 0, s))
      && (fall.Some? ==> fall.value == s && Fed(inputs, s))
  {
    EligibleIs(gameEnd, inputs);
    hide UpTo, Replay, FirstFall, Once, Fed;
    FallOfPast(gameEnd, inputs, s);
    var fall := FirstFall(UpTo(inputs, s), gameEnd);
    if fall.Some? {
      FallsNoLater(gameEnd, inputs, fall.value);
      OnceIsFed(inputs, fall.value);
    }
  }

  lemma OnceBounded(past: seq<Input>, inputs: seq<Input>, s: int, at: int)
    requires PastOf(past, inputs, s) && Once(past, AncientDeath, at, at)
    ensures at <= s
  {}

  lemma OnceWithin(inputs: seq<Input>, at: int, lo: int, hi: int)
    ensures lo <= at <= hi && Once(inputs, AncientDeath, at, at) ==> Once(inputs, AncientDeath, lo, hi)
  {
    if lo <= at <= hi && Once(inputs, AncientDeath, at, at) {
      var i :| 0 <= i < |inputs| && Seen(inputs[i], AncientDeath, at, at);
      assert Seen(inputs[i], AncientDeath, lo, hi);
    }
  }

  lemma OnceIsFed(inputs: seq<Input>, at: int)
    ensures Once(inputs, AncientDeath, at, at) ==> Fed(inputs, at)
  {}

  /** What is known of the state that settles a second of the match. */
  lemma StateFacts(gameEnd: int, inputs: seq<Input>, s: int)
    requires LegalRun(gameEnd, inputs) && 0 <= s < Replay(gameEnd, inputs).eligibleSeconds
    ensures s <= gameEnd
    ensures var st := StateAt(gameEnd, inputs, s);
      && !st.ended && OpenInvariant(st) && Earned(st) && st.log == Within(UpTo(inputs, s), gameEnd + 1)
      && (st.ancient.Some? <==> Once(inputs, AncientDeath, 0, s))
      && (st.ancient.Some? ==> st.ancient.value == s && Fed(inputs, s))
      && st.lastSecond <= s && (st.lastSecond == s <==> Fed(inputs, s))
  {
    FallsNow(gameEnd, inputs, s);
    UpToIsPast(inputs, s);
    var past := UpTo(inputs, s);
    hide UpTo, Replay, FirstFall, Once, PastOf;
    RunFalls(gameEnd, past);
    WholeRunCites(gameEnd, past);
    InitialEarned();
    RunStaysEarned(INITIAL, gameEnd, past);
    SettledIs(gameEnd, inputs, s);
    StateOpen(StateAt(gameEnd, inputs, s), gameEnd, past, s);
    LastFed(StateAt(gameEnd, inputs, s), gameEnd, past, inputs, s);
  }

  lemma InitialEarned()
    ensures Earned(INITIAL)
  {
  }

  lemma StateOpen(st: State, gameEnd: int, past: seq<Input>, s: int)
    requires Invariant(st) && CitesSoFar(st, gameEnd, past) && st.lastSecond <= s
    requires (st.ended ==> st.ancient.Some?) && (st.ancient.Some? ==> st.ancient.value == s)
    ensures !st.ended && OpenInvariant(st) && st.log == Within(past, gameEnd + 1) && FedUpTo(past, st.lastSecond)
  {
    hide Shape, Attributed, Tracks, LogInTime, Within;
  }

  lemma LastFed(st: State, gameEnd: int, past: seq<Input>, inputs: seq<Input>, s: int)
    requires PastOf(past, inputs, s) && s >= 0 && st == Run(INITIAL, gameEnd, past)
    requires FedUpTo(past, st.lastSecond) && st.lastSecond <= s
    ensures st.lastSecond == s <==> Fed(inputs, s)
  {
    LastSecondIsFed(INITIAL, gameEnd, past);
    if st.lastSecond == s {
      var j :| 0 <= j < |past| && past[j].second == s;
      assert inputs[j].second == s;
    }
    if i :| 0 <= i < |inputs| && inputs[i].second == s {
      assert past[i].second == s;
    }
  }

  /** The label that the engine stands in when it comes to second `s`. */
  ghost function Stood(gameEnd: int, inputs: seq<Input>, s: int): Option<Phase> {
    if s == 0 then Some(Laning) else Label(gameEnd, inputs, s - 1)
  }

  lemma StoodIs(gameEnd: int, inputs: seq<Input>, s: int)
    requires LegalRun(gameEnd, inputs) && 0 <= s < Replay(gameEnd, inputs).eligibleSeconds && Fed(inputs, s)
    ensures Stood(gameEnd, inputs, s) == Some(StateAt(gameEnd, inputs, s).current)
    ensures Official(StateAt(gameEnd, inputs, s).current)
  {
    StateFacts(gameEnd, inputs, s);
    var st := StateAt(gameEnd, inputs, s);
    LastIsOfficial(st);
    hide StateAt, Replay, Label, Fed, Once, Shape, Earned, SettledLabel;
    OpenLabel(st, s);
    if s > 0 {
      LeftBehind(gameEnd, inputs, s, s - 1);
      OpenLabel(st, s - 1);
    }
  }

  /** The windows of the state are those of the inputs. */
  lemma GuardsAt(gameEnd: int, inputs: seq<Input>, s: int)
    requires LegalRun(gameEnd, inputs) && 0 <= s < Replay(gameEnd, inputs).eligibleSeconds
    ensures var st := StateAt(gameEnd, inputs, s);
      && (EntersMidgame(st.log, s) <==> Once(inputs, TowerDeath, s, s))
      && (EntersDecisive(st.log, s) <==>
            || Twice(inputs, HeroBuyback, s - 119, s)
            || Once(inputs, RaxDeath, s, s)
            || (SixNamed(inputs, s - 20, s) && Twice(inputs, HeroDeath, s - 30, s)))
      && (st.current == Decisive ==> (Quiet(st.log, s) <==> !Stirs(inputs, s - 29, s)))
  {
    hide *;
    StateFacts(gameEnd, inputs, s);
    LegalPast(gameEnd, inputs, s);
    var past, st := UpTo(inputs, s), StateAt(gameEnd, inputs, s);
    MidgameGuard(past, inputs, gameEnd + 1, s);
    DecisiveGuard(past, inputs, gameEnd + 1, s);
    if st.current == Decisive {
      DecisiveIsEarned(st);
      QuietGuard(past, inputs, gameEnd + 1, s);
    }
  }

  lemma LegalPast(gameEnd: int, inputs: seq<Input>, s: int)
    requires LegalRun(gameEnd, inputs)
    ensures PastOf(UpTo(inputs, s), inputs, s)
  {
    UpToIsPast(inputs, s);
    hide UpTo, PastOf;
  }

  lemma MidgameGuard(past: seq<Input>, inputs: seq<Input>, end: int, s: int)
    requires PastOf(past, inputs, s) && s < end
    ensures EntersMidgame(Within(past, end), s) <==> Once(inputs, TowerDeath, s, s)
  {
    hide *;
    KeptGuards(past, end, s);
    SameOnce(past, inputs, s, TowerDeath, s, s);
  }

  lemma DecisiveGuard(past: seq<Input>, inputs: seq<Input>, end: int, s: int)
    requires PastOf(past, inputs, s) && s < end
    ensures EntersDecisive(Within(past, end), s) <==>
      || Twice(inputs, HeroBuyback, s - 119, s)
      || Once(inputs, RaxDeath, s, s)
      || (SixNamed(inputs, s - 20, s) && Twice(inputs, HeroDeath, s - 30, s))
  {
    hide *;
    KeptGuards(past, end, s);
    SameOnce(past, inputs, s, HeroBuyback, s - 119, s);
    SameOnce(past, inputs, s, RaxDeath, s, s);
    SameOnce(past, inputs, s, HeroDeath, s - 30, s);
    SameSix(past, inputs, s, s - 20);
  }

  lemma QuietGuard(past: seq<Input>, inputs: seq<Input>, end: int, s: int)
    requires PastOf(past, inputs, s) && 0 <= s < end && LastEvidence(Within(past, end)) >= 0
    ensures Quiet(Within(past, end), s) <==> !Stirs(inputs, s - 29, s)
  {
    hide *;
    PastEnds(past, inputs, s);
    KeptQuiet(past, end, s);
    SameStirs(past, inputs, s);
  }

  lemma DecisiveIsEarned(st: State)
    requires Earned(st) && st.current == Decisive
    ensures LastEvidence(st.log) >= 0
  {}

  lemma PastEnds(past: seq<Input>, inputs: seq<Input>, s: int)
    requires PastOf(past, inputs, s)
    ensures forall i :: 0 <= i < |past| ==> past[i].second <= s
  {}

  lemma SameStirs(past: seq<Input>, inputs: seq<Input>, s: int)
    requires PastOf(past, inputs, s)
    ensures Stirs(past, s - 29, s) <==> Stirs(inputs, s - 29, s)
  {
    SameOnce(past, inputs, s, HeroDeath, s - 29, s);
    SameOnce(past, inputs, s, HeroBuyback, s - 29, s);
    SameOnce(past, inputs, s, TowerDeath, s - 29, s);
    SameOnce(past, inputs, s, RaxDeath, s - 29, s);
    hide Once, PastOf, Twice;
  }

  /** Settling an open state gives the second its label. */
  lemma SettlesTo(st: State, s: int)
    requires OpenInvariant(st) && st.lastSecond == s >= 0
    ensures var d := Decide(st.log, st.current, s);
      SettledLabel(FinalizeSecond(st, s), s) == Some(if st.ancient.None? && d.Some? then d.value else st.current)
  {
    hide Shape;
    if st.ancient.Some? {
      CloseKeepsLabel(st, s + 1, ENDED, s);
      OpenLabel(st, s);
    } else {
      FinalizeOpens(st);
      var fin := FinalizeSecond(st, s);
      OpenLabel(fin.(lastSecond := s + 1), s);
      hide Decide, OpenInvariant;
    }
  }

  lemma UnfedPast(inputs: seq<Input>, s: int)
    requires !Fed(inputs, s)
    ensures UpTo(inputs, s) == UpTo(inputs, s - 1)
  {
    if inputs != [] {
      assert inputs[0].second != s;
      assert !Fed(inputs[1..], s) by {
        assert forall i :: 0 <= i < |inputs[1..]| ==> inputs[1..][i] == inputs[i + 1];
      }
      UnfedPast(inputs[1..], s);
    }
  }

  /** A second without an input keeps the label before it. */
  lemma UnfedKeeps(gameEnd: int, inputs: seq<Input>, s: int)
    requires LegalRun(gameEnd, inputs) && 0 <= s < Replay(gameEnd, inputs).eligibleSeconds && !Fed(inputs, s)
    ensures Label(gameEnd, inputs, s) == Stood(gameEnd, inputs, s)
    ensures Label(gameEnd, inputs, s).Some? && Official(Label(gameEnd, inputs, s).value)
  {
    hide *;
    StateFacts(gameEnd, inputs, s);
    SettledIs(gameEnd, inputs, s);
    if s > 0 {
      UnfedState(gameEnd, inputs, s);
      SettledIs(gameEnd, inputs, s - 1);
    }
    SettledAlike(StateAt(gameEnd, inputs, s), s);
    LabelIsStood(gameEnd, inputs, s);
  }

  lemma UnfedState(gameEnd: int, inputs: seq<Input>, s: int)
    requires !Fed(inputs, s)
    ensures StateAt(gameEnd, inputs, s) == StateAt(gameEnd, inputs, s - 1)
  {
    UnfedPast(inputs, s);
    hide UpTo, Run;
  }

  lemma LabelIsStood(gameEnd: int, inputs: seq<Input>, s: int)
    ensures Stood(gameEnd, inputs, s) == if s == 0 then Some(Laning) else Label(gameEnd, inputs, s - 1)
  {}

  lemma SettledAlike(st: State, s: int)
    requires OpenInvariant(st) && st.ancient.None? && st.lastSecond < s && s >= 0
    ensures var fin := FinalizeSecond(st, st.lastSecond);
      && SettledLabel(fin, s) == Some(fin.current) && Official(fin.current)
      && (if s == 0 then fin.current == Laning else SettledLabel(fin, s - 1) == Some(fin.current))
  {
    FinalizeOpens(st);
    var settled := FinalizeSecond(st, st.lastSecond);
    var fin := settled.(lastSecond := st.lastSecond + 1);
    SettledIgnoresClock(settled, st.lastSecond + 1, s);
    SettledIgnoresClock(settled, st.lastSecond + 1, s - 1);
    hide FinalizeSecond, Shape, SettledLabel;
    OpenLabel(fin, s);
    if s > 0 { OpenLabel(fin, s - 1); }
  }

  lemma SettledIgnoresClock(st: State, last: int, t: int)
    ensures SettledLabel(st.(lastSecond := last), t) == SettledLabel(st, t)
  {}

  /** The label of every second of the match, from the label of the second before it (at
      first, Laning) and the fed inputs. Seconds without an input change nothing, and
      neither does the second in which the ancient falls. */
  lemma LabelOfSecond(gameEnd: int, inputs: seq<Input>, s: int)
    requires LegalRun(gameEnd, inputs) && 0 <= s < Replay(gameEnd, inputs).eligibleSeconds
    ensures var labels := Bounds(Replay(gameEnd, inputs).intervals);
      var before := if s == 0 then Some(Laning) else LabelAt(labels, s - 1);
      var live := Fed(inputs, s) && !Once(inputs, AncientDeath, 0, s);
      && before.Some? && Official(before.value)
      && LabelAt(labels, s) ==
           if live && before.value == Laning && Once(inputs, TowerDeath, s, s) then Some(Midgame)
           else if live && before.value == Midgame &&
             (|| Twice(inputs, HeroBuyback, s - 119, s)
              || Once(inputs, RaxDeath, s, s)
              || (SixNamed(inputs, s - 20, s) && Twice(inputs, HeroDeath, s - 30, s))) then Some(Decisive)
           else if live && before.value == Decisive &&
             !(Once(inputs, HeroDeath, s - 29, s) || Once(inputs, HeroBuyback, s - 29, s) ||
               Once(inputs, TowerDeath, s - 29, s) || Once(inputs, RaxDeath, s - 29, s)) then Some(Midgame)
           else before
  {
    hide Replay, Once, Twice, SixNamed, Fed;
    if Fed(inputs, s) {
      StateFacts(gameEnd, inputs, s);
      StoodIs(gameEnd, inputs, s);
      SettledIs(gameEnd, inputs, s);
      GuardsAt(gameEnd, inputs, s);
      hide StateAt, OpenInvariant, Earned, FinalizeSecond, SettledLabel, EntersMidgame, EntersDecisive, Quiet;
      SettlesTo(StateAt(gameEnd, inputs, s), s);
    } else {
      UnfedKeeps(gameEnd, inputs, s);
    }
  }

  /** In an exact output an interval starts just where the label changes. */
  lemma StartsWhereLabelsChange(out: Output, t: int)
    requires ExactOutput(out) && 0 < t < out.eligibleSeconds
    ensures var labels := Bounds(out.intervals);
      (exists i :: 0 <= i < |labels| && labels[i].start == t) <==> LabelAt(labels, t - 1) != LabelAt(labels, t)
  {
    var labels, end := Bounds(out.intervals), out.eligibleSeconds;
    var i := Locate(labels, 0, end, t - 1);
    var j := Locate(labels, 0, end, t);
    LabelAtIndex(labels, 0, end, i, t - 1);
    LabelAtIndex(labels, 0, end, j, t);
    hide RoundsCounted, ResetsMatch;
    TilingOrdered(labels, 0, end);
    hide LabelAt;
    if i != j {
      assert i < j && labels[i].end <= labels[j].start;
      assert labels[j].start == t;
      assert labels[i].end == labels[i + 1].start;
      assert Follows(labels[j - 1].phase, labels[j].phase);
    } else if k :| 0 <= k < |labels| && labels[k].start == t {
      if k < i {
        assert labels[k].end <= labels[i].start;
      } else if i < k {
        assert labels[i].end <= labels[k].start;
      }
    }
  }

  // ---- the length of the match ----

  /** The match ends with the first second in which the ancient falls, else with the clock,
      and only then is it censored. */
  lemma MatchLength(gameEnd: int, inputs: seq<Input>)
    requires LegalRun(gameEnd, inputs)
    ensures var out := Replay(gameEnd, inputs); var last := out.eligibleSeconds - 1;
      && (out.rightCensored <==> !Once(inputs, AncientDeath, 0, gameEnd))
      && (if out.rightCensored then last == gameEnd
          else 0 <= last <= gameEnd && Once(inputs, AncientDeath, last, last)
               && !Once(inputs, AncientDeath, 0, last - 1))
  {
    EligibleIs(gameEnd, inputs);
    CensoredIs(gameEnd, inputs);
    hide Replay, FirstFall, Once;
    FallIsFirst(inputs, gameEnd);
  }

  lemma CensoredIs(gameEnd: int, inputs: seq<Input>)
    requires LegalRun(gameEnd, inputs)
    ensures Replay(gameEnd, inputs).rightCensored <==> FirstFall(inputs, gameEnd).None?
    ensures Replay(gameEnd, inputs).coveredSeconds == Covered(Replay(gameEnd, inputs).intervals)
  {
    RunFalls(gameEnd, inputs);
    WholeRunCites(gameEnd, inputs);
    EndCites(Run(INITIAL, gameEnd, inputs), gameEnd, inputs);
    hide *;
    ReplayCovers(gameEnd, inputs);
  }

  lemma ReplayCovers(gameEnd: int, inputs: seq<Input>)
    ensures var out := Replay(gameEnd, inputs);
      && out.coveredSeconds == Covered(out.intervals)
      && (out.rightCensored <==> EndStep(Run(INITIAL, gameEnd, inputs), gameEnd).ancient.None?)
  {
    hide EndStep, Run, Covered;
  }

  lemma {:induction false} TilingCovers(intervals: seq<Interval>, lo: int, hi: int)
    requires Tiling(Bounds(intervals), lo, hi) && AllOfficial(Bounds(intervals))
    ensures Covered(intervals) == hi - lo
  {
    var s, n := Bounds(intervals), |intervals| - 1;
    if n > 0 {
      var less := Bounds(intervals[..n]);
      assert less == s[..n];
      assert less[n - 1].end == s[n].start;
      TilingCovers(intervals[..n], lo, s[n].start);
    }
  }

  /** The covered seconds are never fewer than the eligible ones, and exactly as many just
      when no guard fires later than the second after the game end. */
  lemma CoveredSeconds(gameEnd: int, inputs: seq<Input>)
    requires LegalRun(gameEnd, inputs)
    ensures var out := Replay(gameEnd, inputs);
      && out.coveredSeconds >= out.eligibleSeconds
      && (out.coveredSeconds == out.eligibleSeconds <==> !Overruns(gameEnd, inputs, gameEnd + 1))
  {
    hide Overruns, Replay, Covered, Tiling, AllOfficial, Shape;
    var out := Replay(gameEnd, inputs);
    CensoredIs(gameEnd, inputs);
    var end := OutputTiles(gameEnd, inputs);
    TilingCovers(out.intervals, 0, end);
  }

  lemma OutputTiles(gameEnd: int, inputs: seq<Input>) returns (end: int)
    requires LegalRun(gameEnd, inputs)
    ensures var out := Replay(gameEnd, inputs);
      && Tiling(Bounds(out.intervals), 0, end) && AllOfficial(Bounds(out.intervals))
      && end >= out.eligibleSeconds && (end == out.eligibleSeconds <==> !Overruns(gameEnd, inputs, gameEnd + 1))
  {
    OutputOfficial(gameEnd, inputs);
    TilesExactlyWhen(gameEnd, inputs);
    end := Replay(gameEnd, inputs).eligibleSeconds;
    if Overruns(gameEnd, inputs, gameEnd + 1) {
      end := OverrunTiles(gameEnd, inputs);
    }
    hide *;
  }

  lemma OutputOfficial(gameEnd: int, inputs: seq<Input>)
    requires LegalRun(gameEnd, inputs)
    ensures AllOfficial(Bounds(Replay(gameEnd, inputs).intervals))
  {
    var st := Run(INITIAL, gameEnd, inputs);
    RunInvariant(gameEnd, inputs);
    AncientInTime(INITIAL, gameEnd, inputs);
    EndIsSettled(st, gameEnd);
    hide Shape, Run, FinalizeSecond, AllOfficial;
    var fin := FinalizeSecond(st, st.lastSecond);
    if st.ancient.Some? {
      ShapeIsOfficial(Bounds(fin.intervals), fin.resets, fin.ancient.value + 1);
    } else {
      ClockEndOfficial(fin.(lastSecond := st.lastSecond + 1), gameEnd);
    }
  }

  lemma ClockEndOfficial(st: State, gameEnd: int)
    requires OpenInvariant(st)
    ensures AllOfficial(Bounds(EndAtClock(st, gameEnd).intervals))
  {
    OpenIsOfficial(st);
    hide OpenInvariant;
    if gameEnd + 1 > st.currentStart { CloseGivesSnapshot(st, gameEnd + 1, ENDED); }
  }

  lemma OpenIsOfficial(st: State)
    requires OpenInvariant(st)
    ensures AllOfficial(Bounds(st.intervals)) && Official(st.current)
  {
    var s := Snapshot(st, st.currentStart + 1);
    ShapeIsOfficial(s, st.resets, st.currentStart + 1);
    hide Shape, OpenInvariant;
    assert forall i :: 0 <= i < |st.intervals| ==> s[i] == Bounds(st.intervals)[i];
    assert s[|st.intervals|] == Open(st, st.currentStart + 1);
  }

  lemma {:induction false} ShapeIsOfficial(s: Stream, resets: seq<ResetEpisode>, end: int)
    requires Shape(s, resets, end)
    ensures AllOfficial(s)
  {
    forall i | 0 <= i < |s| ensures Official(s[i].phase) {
      assert i > 0 ==> Follows(s[i - 1].phase, s[i].phase);
    }
  }

  lemma OverrunTiles(gameEnd: int, inputs: seq<Input>) returns (end: int)
    requires LegalRun(gameEnd, inputs) && Overruns(gameEnd, inputs, gameEnd + 1)
    ensures Tiling(Bounds(Replay(gameEnd, inputs).intervals), 0, end) && end > Replay(gameEnd, inputs).eligibleSeconds
  {
    var st := Run(INITIAL, gameEnd, inputs);
    RunInvariant(gameEnd, inputs);
    AncientInTime(INITIAL, gameEnd, inputs);
    EndIsSettled(st, gameEnd);
    OverrunClosesPast(gameEnd, inputs, gameEnd + 1);
    hide Shape, Run, FinalizeSecond, Overruns;
    var fin := FinalizeSecond(st, st.lastSecond);
    ClosedPartTiles(fin.(lastSecond := st.lastSecond + 1));
    end := fin.currentStart;
  }
}
