/** Exactly which lives and gaps a list of liveness events proves, in terms of the events in
    order of time. */
module LifeCompleteness {
  import opened Wrappers
  import opened LifeSpans

  // ---- the words of the statement ----

  ghost predicate DeadBetween(ev: seq<LifeEvent>, i: int, j: int) {
    exists d :: i < d < j && 0 <= d < |ev| && ShowsDead(ev[d])
  }

  /** Event `i` shows alive, and after every earlier one that does a dead one follows. */
  ghost predicate Begins(ev: seq<LifeEvent>, i: int) {
    && 0 <= i < |ev| && ShowsAlive(ev[i])
    && forall k :: 0 <= k < i && ShowsAlive(ev[k]) ==> DeadBetween(ev, k, i)
  }

  /** The life begun by event `i` has not ended before event `n`. */
  ghost predicate Standing(ev: seq<LifeEvent>, i: int, n: int) {
    i < n && Begins(ev, i) && !DeadBetween(ev, i, n)
  }

  /** The sample does not say whether the account's own hero lives. */
  predicate Blurs(e: LifeEvent, start: LifeEvent, bound: Option<string>) {
    IsGap(e) && bound == Some(e.hero) && e.hero == start.hero
  }

  ghost predicate Blurred(ev: seq<LifeEvent>, i: int, j: int, bound: Option<string>)
    requires 0 <= i < |ev|
  {
    exists g :: i < g < j && 0 <= g < |ev| && Blurs(ev[g], ev[i], bound)
  }

  /** Events `i` and `j` bound a proven life. */
  ghost predicate ProvenAt(ev: seq<LifeEvent>, i: int, j: int, bound: Option<string>) {
    && 0 <= j < |ev| && Standing(ev, i, j) && ShowsDead(ev[j])
    && bound == Some(ev[i].hero) && ev[j].hero == ev[i].hero
    && ev[i].second < ev[j].second && !Blurred(ev, i, j, bound)
  }

  function LifeOf(x: LifeEvent, y: LifeEvent): Life {
    Life(x.second, y.second, x, y)
  }

  ghost predicate IsProven(life: Life, ev: seq<LifeEvent>, n: int, bound: Option<string>) {
    exists i, j :: ProvenAt(ev, i, j, bound) && j < n && life == LifeOf(ev[i], ev[j])
  }

  /** Event `g` blurs the life begun by event `i`. */
  ghost predicate GapAt(ev: seq<LifeEvent>, i: int, g: int, bound: Option<string>) {
    0 <= g < |ev| && Standing(ev, i, g) && Blurs(ev[g], ev[i], bound)
  }

  /** A respawn and a sample of life show a hero alive, a death and a sample of death show it
      dead, and a sample of neither tells nothing. */
  lemma EventsTell(e: LifeEvent)
    ensures ShowsAlive(e) <==> e.kind == Respawn || (e.kind == Liveness && e.alive == Some(true))
    ensures ShowsDead(e) <==> e.kind == Death || (e.kind == Liveness && e.alive == Some(false))
    ensures IsGap(e) <==> e.kind == Liveness && e.alive == None
  {}

  // ---- one life stands at a time ----

  lemma OneStands(ev: seq<LifeEvent>, i: int, k: int, n: int)
    requires Standing(ev, i, n) && Standing(ev, k, n)
    ensures i == k
  {
  }

  lemma DeadNext(ev: seq<LifeEvent>, i: int, n: int)
    requires 0 <= n < |ev|
    ensures DeadBetween(ev, i, n + 1) <==> DeadBetween(ev, i, n) || (i < n && ShowsDead(ev[n]))
  {
    if DeadBetween(ev, i, n + 1) && !(i < n && ShowsDead(ev[n])) {
      var d :| i < d < n + 1 && 0 <= d < |ev| && ShowsDead(ev[d]);
      assert d < n;
    }
  }

  lemma BlurredNext(ev: seq<LifeEvent>, i: int, n: int, bound: Option<string>)
    requires 0 <= n < |ev| && 0 <= i < n
    ensures Blurred(ev, i, n + 1, bound) <==> Blurred(ev, i, n, bound) || Blurs(ev[n], ev[i], bound)
  {
    hide Blurs;
    if Blurred(ev, i, n + 1, bound) && !Blurs(ev[n], ev[i], bound) {
      var g :| i < g < n + 1 && 0 <= g < |ev| && Blurs(ev[g], ev[i], bound);
      assert g < n;
    }
  }

  /** What the next event makes of a standing life. */
  lemma StandingNext(ev: seq<LifeEvent>, i: int, n: int)
    requires 0 <= n < |ev|
    ensures i < n ==> (Standing(ev, i, n + 1) <==> Standing(ev, i, n) && !ShowsDead(ev[n]))
    ensures Standing(ev, n, n + 1) <==> ShowsAlive(ev[n]) && forall k :: !Standing(ev, k, n)
  {
    DeadNext(ev, i, n);
    if Standing(ev, n, n + 1) {
      forall k ensures !Standing(ev, k, n) {}
    }
    if ShowsAlive(ev[n]) && forall k :: !Standing(ev, k, n) {
      NoneStanding(ev, n);
      assert !DeadBetween(ev, n, n + 1);
    }
  }

  /** When no life stands, every alive event has been answered by a dead one. */
  lemma NoneStanding(ev: seq<LifeEvent>, n: int)
    requires 0 <= n <= |ev| && forall k :: !Standing(ev, k, n)
    ensures forall k :: 0 <= k < n && ShowsAlive(ev[k]) ==> DeadBetween(ev, k, n)
  {
    forall k | 0 <= k < n && ShowsAlive(ev[k]) ensures DeadBetween(ev, k, n) {
      if !DeadBetween(ev, k, n) {
        var i := FirstUnanswered(ev, k, n);
      }
    }
  }

  lemma DeadSplits(ev: seq<LifeEvent>, j: int, k: int, n: int)
    requires 0 <= j < k < n <= |ev|
    ensures DeadBetween(ev, j, n) <==> DeadBetween(ev, j, k) || ShowsDead(ev[k]) || DeadBetween(ev, k, n)
  {
    if DeadBetween(ev, j, n) {
      var d :| j < d < n && 0 <= d < |ev| && ShowsDead(ev[d]);
      assert (d < k ==> DeadBetween(ev, j, k)) && (d > k ==> DeadBetween(ev, k, n));
    }
  }

  /** Of the alive events that no dead one answers before `n`, the first begins a life. */
  lemma {:induction false} FirstUnanswered(ev: seq<LifeEvent>, k: int, n: int) returns (i: int)
    requires 0 <= k < n <= |ev| && ShowsAlive(ev[k]) && !DeadBetween(ev, k, n)
    ensures Standing(ev, i, n)
    decreases k
  {
    if Begins(ev, k) {
      i := k;
    } else {
      var j :| 0 <= j < k && ShowsAlive(ev[j]) && !DeadBetween(ev, j, k);
      DeadSplits(ev, j, k, n);
      i := FirstUnanswered(ev, j, n);
    }
  }

  // ---- the automaton keeps track of it ----

  /** The state after the first `n` events; `i` is the standing life, or -1. */
  ghost predicate Tracks(sc: Scan, ev: seq<LifeEvent>, bound: Option<string>, n: int, i: int) {
    && 0 <= n <= |ev|
    && sc.start == (if 0 <= i < n then Some(ev[i]) else None)
    && (sc.last == Alive <==> i >= 0)
    && (if i >= 0 then Standing(ev, i, n) && (sc.openGap <==> Blurred(ev, i, n, bound))
        else i == -1 && NoneStands(ev, n))
    && Lists(sc.lives, ev, n, bound)
  }

  ghost predicate NoneStands(ev: seq<LifeEvent>, n: int) {
    forall k :: !Standing(ev, k, n)
  }

  ghost predicate Lists(lives: seq<Life>, ev: seq<LifeEvent>, n: int, bound: Option<string>) {
    forall life :: life in lives <==> IsProven(life, ev, n, bound)
  }

  lemma ProvenNext(ev: seq<LifeEvent>, bound: Option<string>, n: int, life: Life)
    requires 0 <= n < |ev|
    ensures IsProven(life, ev, n + 1, bound) <==>
      IsProven(life, ev, n, bound) || exists i :: ProvenAt(ev, i, n, bound) && life == LifeOf(ev[i], ev[n])
  {
    hide ProvenAt, LifeOf;
  }

  /** Which lives stand after the next event. */
  lemma StandingAfter(ev: seq<LifeEvent>, n: int, m: int, k: int)
    requires 0 <= n < |ev| && m == n + 1
    ensures Standing(ev, k, m) <==>
      if k == n then ShowsAlive(ev[n]) && NoneStands(ev, n) else Standing(ev, k, n) && !ShowsDead(ev[n])
  {
    StandingNext(ev, k, n);
    hide Begins, DeadBetween;
  }

  lemma NoneStandsAfter(ev: seq<LifeEvent>, n: int, m: int)
    requires 0 <= n < |ev| && m == n + 1
    ensures NoneStands(ev, m) <==> ShowsDead(ev[n]) || (NoneStands(ev, n) && !ShowsAlive(ev[n]))
  {
    forall k
      ensures Standing(ev, k, m) <==>
        if k == n then ShowsAlive(ev[n]) && NoneStands(ev, n) else Standing(ev, k, n) && !ShowsDead(ev[n])
    {
      StandingAfter(ev, n, m, k);
    }
    assert !Standing(ev, n, n);
    hide Standing;
  }

  lemma ListsOn(lives: seq<Life>, ev: seq<LifeEvent>, n: int, m: int, bound: Option<string>)
    requires 0 <= n < |ev| && m == n + 1 && Lists(lives, ev, n, bound) && forall k :: !ProvenAt(ev, k, n, bound)
    ensures Lists(lives, ev, m, bound)
  {
    forall life ensures IsProven(life, ev, m, bound) <==> IsProven(life, ev, n, bound) {
      ProvenNext(ev, bound, n, life);
      hide IsProven;
    }
    hide IsProven, ProvenAt;
  }

  lemma ListsMore(lives: seq<Life>, ev: seq<LifeEvent>, n: int, m: int, bound: Option<string>, i: int)
    requires 0 <= n < |ev| && m == n + 1 && Lists(lives, ev, n, bound)
    requires ProvenAt(ev, i, n, bound) && forall k :: ProvenAt(ev, k, n, bound) ==> k == i
    ensures Lists(lives + [LifeOf(ev[i], ev[n])], ev, m, bound)
  {
    forall life ensures IsProven(life, ev, m, bound) <==> IsProven(life, ev, n, bound) || life == LifeOf(ev[i], ev[n]) {
      ProvenNext(ev, bound, n, life);
      hide IsProven, ProvenAt;
    }
    hide IsProven, ProvenAt;
  }

  lemma ProvenNow(ev: seq<LifeEvent>, bound: Option<string>, n: int, i: int)
    requires 0 <= n < |ev| && (if i >= 0 then Standing(ev, i, n) else NoneStands(ev, n))
    ensures forall k :: ProvenAt(ev, k, n, bound) ==> k == i
  {
    forall k | ProvenAt(ev, k, n, bound) ensures k == i {
      if i >= 0 { OneStands(ev, i, k, n); }
      hide Standing;
    }
  }

  /** No new life, and the standing one goes on or a new one begins. */
  lemma TracksOn(sc: Scan, sc': Scan, ev: seq<LifeEvent>, bound: Option<string>, n: int, i: int, i': int)
    requires Tracks(sc, ev, bound, n, i) && n < |ev| && !ShowsDead(ev[n])
    requires sc'.lives == sc.lives && (sc'.last == Alive <==> i' >= 0)
    requires sc'.start == (if 0 <= i' <= n then Some(ev[i']) else None)
    requires if ShowsAlive(ev[n]) && i < 0 then i' == n else i' == i
    requires i' >= 0 ==> (sc'.openGap <==> i' == i && (sc.openGap || Blurs(ev[n], ev[i], bound)))
    ensures Tracks(sc', ev, bound, n + 1, i')
  {
    var m := n + 1;
    assert forall k :: !ProvenAt(ev, k, n, bound);
    ListsOn(sc.lives, ev, n, m, bound);
    NoneStandsAfter(ev, n, m);
    if i' >= 0 { StandingAfter(ev, n, m, i'); }
    if i >= 0 { BlurredNext(ev, i, n, bound); }
    if i' == n { assert !Blurred(ev, n, m, bound); }
    hide Standing, Blurred, Lists, NoneStands, Blurs, ShowsDead, ShowsAlive;
  }

  lemma TracksDead(sc: Scan, ev: seq<LifeEvent>, bound: Option<string>, n: int, i: int)
    requires Tracks(sc, ev, bound, n, i) && n < |ev| && ShowsDead(ev[n])
    ensures Tracks(Step(sc, ev[n], bound), ev, bound, n + 1, -1)
  {
    var m := n + 1;
    NoneStandsAfter(ev, n, m);
    ProvenNow(ev, bound, n, i);
    assert i >= 0 ==> (ProvenAt(ev, i, n, bound) <==> (bound == Some(ev[i].hero) && ev[n].hero == ev[i].hero
                       && ev[i].second < ev[n].second && !sc.openGap));
    if i >= 0 && ProvenAt(ev, i, n, bound) {
      ListsMore(sc.lives, ev, n, m, bound, i);
    } else {
      assert forall k :: !ProvenAt(ev, k, n, bound) by { assert i < 0 ==> !ProvenAt(ev, i, n, bound); hide ProvenAt; }
      ListsOn(sc.lives, ev, n, m, bound);
    }
    hide Standing, Blurred, Lists, NoneStands, ProvenAt;
  }

  lemma TracksNext(sc: Scan, ev: seq<LifeEvent>, bound: Option<string>, n: int, i: int) returns (i': int)
    requires Tracks(sc, ev, bound, n, i) && n < |ev|
    ensures Tracks(Step(sc, ev[n], bound), ev, bound, n + 1, i')
  {
    i' := if ShowsDead(ev[n]) then -1 else if ShowsAlive(ev[n]) && i < 0 then n else i;
    hide Standing, Blurred, Lists, NoneStands;
    if ShowsDead(ev[n]) {
      TracksDead(sc, ev, bound, n, i);
    } else {
      TracksOn(sc, Step(sc, ev[n], bound), ev, bound, n, i, i');
    }
  }

  lemma {:induction false} ScanTracks(ev: seq<LifeEvent>, bound: Option<string>, n: nat) returns (i: int)
    requires n <= |ev|
    ensures Tracks(ScanEvents(ev[..n], bound), ev, bound, n, i)
  {
    if n == 0 {
      i := -1;
    } else {
      i := ScanTracks(ev, bound, n - 1);
      assert ev[..n][..n - 1] == ev[..n - 1];
      hide Tracks, Step;
      i := TracksNext(ScanEvents(ev[..n - 1], bound), ev, bound, n - 1, i);
    }
  }

  /** The lives of a list are exactly those its ordered events prove: from an event that
      shows alive where no life stands to the next one that shows dead, both of the bound
      hero, later, and with no sample between them that does not say. */
  lemma LivesAreComplete(recorded: seq<LifeEvent>, bound: Option<string>)
    ensures var ev := SortEvents(recorded);
      forall life :: life in Lives(recorded, bound) <==> IsProven(life, ev, |ev|, bound)
  {
    var ev := SortEvents(recorded);
    var i := ScanTracks(ev, bound, |ev|);
    assert ev[..|ev|] == ev;
    hide SortEvents, ScanEvents, Standing, IsProven;
  }

  // ---- gaps ----

  /** `at` lists the positions of the gaps among the first `n` events. */
  ghost predicate GapsAt(gaps: seq<Gap>, ev: seq<LifeEvent>, n: int, bound: Option<string>, at: seq<int>) {
    && |at| == |gaps| && n <= |ev|
    && (forall j, k :: 0 <= j < k < |at| ==> at[j] < at[k])
    && (forall k :: 0 <= k < |at| ==> 0 <= at[k] < n && IsGapAt(gaps[k], ev, at[k], bound))
    && (forall i, g :: GapAt(ev, i, g, bound) && g < n ==> g in at)
  }

  ghost predicate IsGapAt(gap: Gap, ev: seq<LifeEvent>, g: int, bound: Option<string>) {
    exists i :: GapAt(ev, i, g, bound) && gap == Gap(ev[g].second, ev[i], ev[g])
  }

  lemma GapsOn(
    sc: Scan, ev: seq<LifeEvent>, bound: Option<string>, n: int, i: int, at: seq<int>) returns (at': seq<int>)
    requires Tracks(sc, ev, bound, n, i) && n < |ev| && GapsAt(sc.gaps, ev, n, bound, at)
    ensures GapsAt(Step(sc, ev[n], bound).gaps, ev, n + 1, bound, at')
  {
    forall k | GapAt(ev, k, n, bound) ensures k == i {
      if i >= 0 { OneStands(ev, i, k, n); }
      hide Standing;
    }
    hide Standing, Blurred, Lists;
    if i >= 0 && Blurs(ev[n], ev[i], bound) {
      assert GapAt(ev, i, n, bound) && IsGapAt(Gap(ev[n].second, ev[i], ev[n]), ev, n, bound);
      at' := at + [n];
      hide IsGapAt;
    } else {
      at' := at;
      hide IsGapAt;
    }
  }

  lemma {:induction false} ScanGaps(ev: seq<LifeEvent>, bound: Option<string>, n: nat) returns (at: seq<int>)
    requires n <= |ev|
    ensures GapsAt(ScanEvents(ev[..n], bound).gaps, ev, n, bound, at)
  {
    if n == 0 {
      at := [];
    } else {
      at := ScanGaps(ev, bound, n - 1);
      assert ev[..n][..n - 1] == ev[..n - 1];
      var i := ScanTracks(ev, bound, n - 1);
      hide Tracks, Step, GapsAt;
      at := GapsOn(ScanEvents(ev[..n - 1], bound), ev, bound, n - 1, i, at);
    }
  }

  /** The gaps are exactly the samples of the bound hero that do not say whether it lives
      while a life of it stands, each once, in order of time. */
  lemma GapsAreComplete(recorded: seq<LifeEvent>, bound: Option<string>) returns (at: seq<int>)
    ensures var ev := SortEvents(recorded); GapsAt(Gaps(recorded, bound), ev, |ev|, bound, at)
  {
    var ev := SortEvents(recorded);
    at := ScanGaps(ev, bound, |ev|);
    assert ev[..|ev|] == ev;
    hide SortEvents, ScanEvents, GapsAt;
  }

  // ---- the order of the events ----

  /** The events of one second and number, as they were recorded. */
  function OfKey(s: seq<LifeEvent>, second: real, seqNo: int): seq<LifeEvent> {
    if s == [] then []
    else
      var e := s[|s| - 1];
      OfKey(s[..|s| - 1], second, seqNo) + IfKey(e, second, seqNo)
  }

  function IfKey(e: LifeEvent, second: real, seqNo: int): seq<LifeEvent> {
    if e.second == second && e.seqNo == seqNo then [e] else []
  }

  lemma OfKeyAppend(s: seq<LifeEvent>, e: LifeEvent, second: real, seqNo: int)
    ensures OfKey(s + [e], second, seqNo) == OfKey(s, second, seqNo) + IfKey(e, second, seqNo)
  {
    assert (s + [e])[..|s|] == s;
  }

  lemma InsertStep(s: seq<LifeEvent>, e: LifeEvent)
    requires s != [] && !NotAfter(s[|s| - 1], e)
    ensures InsertEvent(s, e) == InsertEvent(s[..|s| - 1], e) + [s[|s| - 1]]
  {}

  lemma Swapped<T>(a: seq<T>, b: seq<T>, c: seq<T>)
    requires b == [] || c == []
    ensures (a + b) + c == (a + c) + b
  {}

  lemma {:induction false} InsertStable(s: seq<LifeEvent>, e: LifeEvent, second: real, seqNo: int)
    ensures OfKey(InsertEvent(s, e), second, seqNo) == OfKey(s + [e], second, seqNo)
  {
    hide *;
    if s != [] && !NotAfter(s[|s| - 1], e) {
      var n := |s| - 1;
      var t, x, y := InsertEvent(s[..n], e), IfKey(e, second, seqNo), IfKey(s[n], second, seqNo);
      InsertStep(s, e);
      InsertStable(s[..n], e, second, seqNo);
      OfKeyAppend(t, s[n], second, seqNo);
      OfKeyAppend(s[..n], e, second, seqNo);
      OfKeyAppend(s[..n], s[n], second, seqNo);
      OfKeyAppend(s, e, second, seqNo);
      assert s == s[..n] + [s[n]];
      KeysDiffer(s[n], e, second, seqNo);
      Swapped(OfKey(s[..n], second, seqNo), x, y);
    } else {
      InsertsLast(s, e);
    }
  }

  lemma InsertsLast(s: seq<LifeEvent>, e: LifeEvent)
    requires s == [] || NotAfter(s[|s| - 1], e)
    ensures InsertEvent(s, e) == s + [e]
  {}

  lemma KeysDiffer(a: LifeEvent, b: LifeEvent, second: real, seqNo: int)
    requires !NotAfter(a, b)
    ensures IfKey(a, second, seqNo) == [] || IfKey(b, second, seqNo) == []
  {}

  lemma {:induction false} InsertOrders(s: seq<LifeEvent>, e: LifeEvent)
    requires forall i, j :: 0 <= i < j < |s| ==> NotAfter(s[i], s[j])
    ensures var t := InsertEvent(s, e); forall i, j :: 0 <= i < j < |t| ==> NotAfter(t[i], t[j])
  {
    if s == [] || NotAfter(s[|s| - 1], e) {
      forall i | 0 <= i < |s| ensures NotAfter(s[i], e) { assert i < |s| - 1 ==> NotAfter(s[i], s[|s| - 1]); }
    } else {
      var n := |s| - 1;
      InsertStep(s, e);
      InsertOrders(s[..n], e);
      MembersOfInsert(s[..n], e);
      var t := InsertEvent(s[..n], e);
      assert NotAfter(e, s[n]);
      forall x | x in s[..n] ensures NotAfter(x, s[n]) {
        var m :| 0 <= m < n && s[..n][m] == x;
        assert s[m] == x;
      }
      hide InsertEvent, NotAfter;
      forall k | 0 <= k < |t| ensures NotAfter(t[k], s[n]) {
        assert t[k] in t;
      }
    }
  }

  lemma {:induction false} MembersOfInsert(s: seq<LifeEvent>, e: LifeEvent)
    ensures forall x :: x in InsertEvent(s, e) ==> x in s || x == e
  {
    if s != [] && !NotAfter(s[|s| - 1], e) { MembersOfInsert(s[..|s| - 1], e); }
  }

  /** Events are taken in order of second, then number; those with both alike keep the
      order in which they were recorded. */
  lemma {:induction false} SortIsStable(s: seq<LifeEvent>, second: real, seqNo: int)
    ensures var t := SortEvents(s);
      && (forall i, j :: 0 <= i < j < |t| ==>
            t[i].second < t[j].second || (t[i].second == t[j].second && t[i].seqNo <= t[j].seqNo))
      && OfKey(t, second, seqNo) == OfKey(s, second, seqNo)
  {
    if s != [] {
      var n := |s| - 1;
      SortIsStable(s[..n], second, seqNo);
      InsertOrders(SortEvents(s[..n]), s[n]);
      InsertStable(SortEvents(s[..n]), s[n], second, seqNo);
      OfKeyAppend(SortEvents(s[..n]), s[n], second, seqNo);
    }
  }
}
