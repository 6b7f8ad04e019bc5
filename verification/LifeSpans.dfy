/** Proven lives: the automaton over liveness events, and their intersection with the
    official phase stream. */
module LifeSpans {
  import opened Wrappers

  datatype LifeKind = Respawn | Death | Liveness

  datatype LifeEvent = LifeEvent(second: real, kind: LifeKind, alive: Option<bool>, hero: string, seqNo: int)

  /** A proven life, or the part of one inside a phase: `lifeStart` and `lifeEnd` stay. */
  datatype Life = Life(start: real, end: real, lifeStart: LifeEvent, lifeEnd: LifeEvent)

  datatype Gap = Gap(second: real, lifeStart: LifeEvent, source: LifeEvent)

  datatype LifeState = Unknown | Alive | Dead

  datatype Scan = Scan(start: Option<LifeEvent>, openGap: bool, last: LifeState, lives: seq<Life>, gaps: seq<Gap>)

  const START := Scan(None, false, Unknown, [], [])

  function Id(life: Life): (int, int) {
    (life.lifeStart.seqNo, life.lifeEnd.seqNo)
  }

  predicate IsGap(e: LifeEvent) {
    e.kind == Liveness && e.alive.None?
  }

  predicate ShowsAlive(e: LifeEvent) {
    e.kind == Respawn || (e.kind == Liveness && e.alive.Some? && e.alive.value)
  }

  predicate ShowsDead(e: LifeEvent) {
    e.kind == Death || (e.kind == Liveness && e.alive.Some? && !e.alive.value)
  }

  // ---- ordering the events ----

  predicate NotAfter(a: LifeEvent, b: LifeEvent) {
    a.second < b.second || (a.second == b.second && a.seqNo <= b.seqNo)
  }

  function InsertEvent(s: seq<LifeEvent>, e: LifeEvent): seq<LifeEvent> {
    if s == [] || NotAfter(s[|s| - 1], e) then s + [e] else InsertEvent(s[..|s| - 1], e) + [s[|s| - 1]]
  }

  function SortEvents(s: seq<LifeEvent>): seq<LifeEvent> {
    if s == [] then [] else InsertEvent(SortEvents(s[..|s| - 1]), s[|s| - 1])
  }

  ghost predicate InTime(s: seq<LifeEvent>) {
    forall i, j :: 0 <= i < j < |s| ==> s[i].second <= s[j].second
  }

  // ---- the automaton ----

  /** One event; `bound` is the hero the account is bound to, if any. */
  function Step(sc: Scan, e: LifeEvent, bound: Option<string>): Scan {
    if IsGap(e) then
      if sc.start.Some? && bound == Some(e.hero) && e.hero == sc.start.value.hero
      then sc.(openGap := true, gaps := sc.gaps + [Gap(e.second, sc.start.value, e)])
      else sc
    else if ShowsAlive(e) then
      if sc.last == Alive then sc else sc.(start := Some(e), openGap := false, last := Alive)
    else if sc.last == Dead then sc
    else
      var proven := sc.start.Some? && !sc.openGap && bound == Some(e.hero) && e.second > sc.start.value.second &&
            e.hero == sc.start.value.hero;
      sc.(start := None, openGap := false, last := Dead,
          lives := if proven then sc.lives + [Life(sc.start.value.second, e.second, sc.start.value, e)] else sc.lives)
  }

  function ScanEvents(events: seq<LifeEvent>, bound: Option<string>): Scan {
    if events == [] then START else Step(ScanEvents(events[..|events| - 1], bound), events[|events| - 1], bound)
  }

  method ProvenLifeIntervals(recorded: seq<LifeEvent>, bound: Option<string>) returns (lives: seq<Life>, gaps: seq<Gap>)
    ensures lives == ScanEvents(SortEvents(recorded), bound).lives
    ensures gaps == ScanEvents(SortEvents(recorded), bound).gaps
  {
    var events := SortEvents(recorded);
    lives, gaps := [], [];
    var start: Option<LifeEvent>, openGap, last := None, false, Unknown;
    for i := 0 to |events|
      invariant Scan(start, openGap, last, lives, gaps) == ScanEvents(events[..i], bound)
    {
      assert events[..i + 1][..i] == events[..i];
      var e := events[i];
      if e.kind == Liveness && e.alive.None? {
        if start.Some? && bound == Some(e.hero) && e.hero == start.value.hero {
          openGap := true;
          gaps := gaps + [Gap(e.second, start.value, e)];
        }
        continue;
      }
      var isAlive := e.kind == Respawn || (e.kind == Liveness && e.alive.value);
      if isAlive {
        if last == Alive {
          continue;
        }
        start, openGap, last := Some(e), false, Alive;
        continue;
      }
      if last == Dead {
        continue;
      }
      if start.Some? && !openGap && bound == Some(e.hero) && e.second > start.value.second &&
          e.hero == start.value.hero {
        lives := lives + [Life(start.value.second, e.second, start.value, e)];
      }
      start, openGap, last := None, false, Dead;
    }
    assert events[..|events|] == events;
  }

  // ---- what the automaton proves ----

  /** Ordered, disjoint, each of positive length. */
  ghost predicate Disjoint(lives: seq<Life>) {
    && (forall i :: 0 <= i < |lives| ==> lives[i].start < lives[i].end)
    && (forall i, j :: 0 <= i < j < |lives| ==> lives[i].end <= lives[j].start)
  }

  predicate StrictlyInside(g: Gap, life: Life) {
    life.start < g.second < life.end
  }

  /** A life runs from an alive event to a dead event of the bound hero. */
  ghost predicate Witnessed(life: Life, events: seq<LifeEvent>, bound: Option<string>) {
    && life.start == life.lifeStart.second && life.end == life.lifeEnd.second
    && life.lifeStart in events && ShowsAlive(life.lifeStart)
    && life.lifeEnd in events && ShowsDead(life.lifeEnd)
    && bound == Some(life.lifeStart.hero) && bound == Some(life.lifeEnd.hero)
  }

  ghost predicate ScanInvariant(sc: Scan, events: seq<LifeEvent>, bound: Option<string>, now: real) {
    && Disjoint(sc.lives)
    && (forall i :: 0 <= i < |sc.lives| ==> sc.lives[i].end <= now && Witnessed(sc.lives[i], events, bound))
    && (forall g :: g in sc.gaps ==> g.second <= now && forall i :: 0 <= i < |sc.lives| ==>
         !StrictlyInside(g, sc.lives[i]))
    && (sc.start.Some? ==>
          var s := sc.start.value;
          && s in events && ShowsAlive(s) && s.second <= now
          && (forall i :: 0 <= i < |sc.lives| ==> sc.lives[i].end <= s.second)
          && (!sc.openGap ==> forall g :: g in sc.gaps ==> g.second <= s.second))
  }

  lemma WitnessedLonger(life: Life, events: seq<LifeEvent>, e: LifeEvent, bound: Option<string>)
    requires Witnessed(life, events, bound)
    ensures Witnessed(life, events + [e], bound)
  {}

  /** Events that prove no life keep the invariant. */
  lemma LaterKeeps(sc: Scan, events: seq<LifeEvent>, e: LifeEvent, bound: Option<string>, now: real)
    requires ScanInvariant(sc, events, bound, now) && now <= e.second
    ensures ScanInvariant(sc, events + [e], bound, e.second)
  {
    forall i | 0 <= i < |sc.lives| ensures Witnessed(sc.lives[i], events + [e], bound) {
      WitnessedLonger(sc.lives[i], events, e, bound);
    }
    hide Witnessed;
  }

  lemma StepKeeps(sc: Scan, events: seq<LifeEvent>, e: LifeEvent, bound: Option<string>, now: real)
    requires ScanInvariant(sc, events, bound, now) && now <= e.second
    ensures ScanInvariant(Step(sc, e, bound), events + [e], bound, e.second)
  {
    LaterKeeps(sc, events, e, bound, now);
    if IsGap(e) || ShowsAlive(e) || sc.last == Dead {
      QuietStepKeeps(sc, events + [e], e, bound);
    } else {
      DeathStepKeeps(sc, events + [e], e, bound);
    }
  }

  lemma QuietStepKeeps(sc: Scan, events: seq<LifeEvent>, e: LifeEvent, bound: Option<string>)
    requires ScanInvariant(sc, events, bound, e.second) && e in events
    requires IsGap(e) || ShowsAlive(e) || sc.last == Dead
    ensures ScanInvariant(Step(sc, e, bound), events, bound, e.second)
  {
    hide Witnessed;
  }

  /** A death ends a proven life, or none. */
  lemma DeathStepKeeps(sc: Scan, events: seq<LifeEvent>, e: LifeEvent, bound: Option<string>)
    requires ScanInvariant(sc, events, bound, e.second) && e in events
    requires !IsGap(e) && !ShowsAlive(e) && sc.last != Dead
    ensures ScanInvariant(Step(sc, e, bound), events, bound, e.second)
  {
    if Step(sc, e, bound).lives != sc.lives {
      var life := Life(sc.start.value.second, e.second, sc.start.value, e);
      assert Step(sc, e, bound).lives == sc.lives + [life];
      assert Witnessed(life, events, bound);
    }
    hide Witnessed;
  }

  lemma {:induction false} ScanProves(events: seq<LifeEvent>, bound: Option<string>)
    requires InTime(events)
    ensures events != [] ==> ScanInvariant(ScanEvents(events, bound), events, bound, events[|events| - 1].second)
    ensures events == [] ==> ScanEvents(events, bound) == START
  {
    if events != [] {
      var n := |events| - 1;
      ScanProves(events[..n], bound);
      assert events == events[..n] + [events[n]];
      var now := if n == 0 then events[n].second else events[n - 1].second;
      StepKeeps(ScanEvents(events[..n], bound), events[..n], events[n], bound, now);
    }
  }

  lemma {:induction false} InsertKeepsTime(s: seq<LifeEvent>, e: LifeEvent)
    requires InTime(s)
    ensures InTime(InsertEvent(s, e)) && forall x :: x in InsertEvent(s, e) <==> x in s || x == e
  {
    if s != [] && !NotAfter(s[|s| - 1], e) {
      var n := |s| - 1;
      InsertKeepsTime(s[..n], e);
      var t := InsertEvent(s[..n], e);
      assert s == s[..n] + [s[n]];
      forall k | 0 <= k < |t| ensures t[k].second <= s[n].second {
        assert t[k] in t;
      }
    }
  }

  lemma {:induction false} SortIsInTime(s: seq<LifeEvent>)
    ensures InTime(SortEvents(s)) && forall x :: x in SortEvents(s) <==> x in s
  {
    if s != [] {
      var n := |s| - 1;
      SortIsInTime(s[..n]);
      InsertKeepsTime(SortEvents(s[..n]), s[n]);
      assert s == s[..n] + [s[n]];
    }
  }

  function Lives(recorded: seq<LifeEvent>, bound: Option<string>): seq<Life> {
    ScanEvents(SortEvents(recorded), bound).lives
  }

  function Gaps(recorded: seq<LifeEvent>, bound: Option<string>): seq<Gap> {
    ScanEvents(SortEvents(recorded), bound).gaps
  }

  /** Whatever was recorded, in whatever order: proven lives are ordered and disjoint,
      run from an alive to a dead event of the bound hero, and no gap lies inside one. */
  lemma LivesAreProven(recorded: seq<LifeEvent>, bound: Option<string>)
    ensures var lives, gaps := Lives(recorded, bound), Gaps(recorded, bound);
      && Disjoint(lives)
      && (forall i :: 0 <= i < |lives| ==> Witnessed(lives[i], recorded, bound))
      && (forall g, i :: g in gaps && 0 <= i < |lives| ==> !StrictlyInside(g, lives[i]))
  {
    SortIsInTime(recorded);
    ScanProves(SortEvents(recorded), bound);
  }
}
