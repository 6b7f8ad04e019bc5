/** The phase engine on values: what one call does to the engine's state, with every
    sliding window read off the log of recorded inputs. */
module EngineSpec {
  import opened Wrappers
  import opened Phases

  datatype Kind =
    | HeroDeath | HeroBuyback | TowerDeath | RaxDeath | AncientDeath
    | HeroPosition | Damage | Respawn

  datatype Input = Input(second: int, seqNo: int, kind: Kind, account: string)

  type Log = seq<Input>

  datatype Interval = Interval(bounds: PhaseInterval, evidence: seq<int>)

  datatype ResetEpisode = ResetEpisode(start: int, end: int, evidence: seq<int>)

  datatype Output = Output(intervals: seq<Interval>, resets: seq<ResetEpisode>, eligibleSeconds: int,
      coveredSeconds: int, rightCensored: bool)

  /** `log` holds the recorded inputs in order; `ended` is set once the match is over. */
  datatype State = State(
    log: Log,
    ancient: Option<int>,
    current: Phase,
    currentStart: int,
    roundIndex: int,
    lastSecond: int,
    intervals: seq<Interval>,
    resets: seq<ResetEpisode>,
    pending: seq<int>,
    ended: bool)

  const INITIAL := State([], None, Laning, 0, 0, -1, [], [], [], false)

  // ---- windows over the log ----

  function Count(log: Log, kind: Kind, lo: int, hi: int): nat {
    if log == [] then 0
    else
      var x := log[|log| - 1];
      Count(log[..|log| - 1], kind, lo, hi) + (if x.kind == kind && lo <= x.second <= hi then 1 else 0)
  }

  /** Deaths always name a fighter; damage does when its actor is known. */
  predicate Fights(x: Input) {
    x.kind == HeroDeath || (x.kind == Damage && x.account != "")
  }

  ghost function Fighters(log: Log, lo: int, hi: int): set<string> {
    set x | x in log && Fights(x) && lo <= x.second <= hi :: x.account
  }

  predicate DecisiveRelevant(kind: Kind) {
    kind == HeroDeath || kind == HeroBuyback || kind == TowerDeath || kind == RaxDeath
  }

  function Max(a: int, b: int): int { if a > b then a else b }

  function Min(a: int, b: int): int { if a < b then a else b }

  /** The last second with decisive-relevant evidence, or -1. */
  function LastEvidence(log: Log): int {
    if log == [] then -1
    else
      var x := log[|log| - 1];
      var earlier := LastEvidence(log[..|log| - 1]);
      if DecisiveRelevant(x.kind) then Max(earlier, x.second) else earlier
  }

  // ---- guards ----

  ghost predicate MajorFightAt(log: Log, s: int) {
    |Fighters(log, s - 20, s)| >= 6 && Count(log, HeroDeath, s - 30, s) >= 2
  }

  ghost predicate EntersMidgame(log: Log, s: int) {
    Count(log, TowerDeath, s, s) > 0
  }

  ghost predicate EntersDecisive(log: Log, s: int) {
    || Count(log, HeroBuyback, s - 119, s) >= 2
    || Count(log, RaxDeath, s, s) > 0
    || MajorFightAt(log, s)
  }

  ghost predicate Quiet(log: Log, s: int) {
    s - LastEvidence(log) >= 30
  }

  /** The phase, if any, that the engine moves to when it finalizes second `s`. */
  ghost function Decide(log: Log, current: Phase, s: int): Option<Phase> {
    match current
    case Laning => if EntersMidgame(log, s) then Some(Midgame) else None
    case Midgame => if EntersDecisive(log, s) then Some(Decisive) else None
    case Decisive => if Quiet(log, s) then Some(Midgame) else None
    case Other(_) => None
  }

  // ---- steps ----

  function CloseInterval(st: State, end: int, next: Phase): State {
    if end <= st.currentStart then st
    else
      var closed := Interval(PhaseInterval(st.currentStart, end, st.current, st.roundIndex, ""), st.pending);
      st.(intervals := st.intervals + [closed],
          resets := if st.current == Decisive && next == Midgame
                    then st.resets + [ResetEpisode(end, end + 90, st.pending)] else st.resets,
          pending := [])
  }

  function Transition(st: State, s: int, to: Phase): State {
    if st.current == to then st
    else
      CloseInterval(st, s, to).(
        current := to,
        currentStart := s,
        roundIndex := if to == Decisive then st.roundIndex + 1 else st.roundIndex)
  }

  ghost function FinalizeSecond(st: State, s: int): State {
    if st.ended || s < 0 then st
    else if st.ancient.Some? && st.ancient.value <= s then CloseInterval(st, s + 1, ENDED).(ended := true)
    else
      match Decide(st.log, st.current, s)
      case Some(to) => Transition(st, s, to)
      case None => st
  }

  /** Which kinds always carry evidence; the ancient's death does so once. */
  predicate BearsEvidence(kind: Kind) {
    DecisiveRelevant(kind) || kind == Damage
  }

  function Record(st: State, x: Input): State {
    var logged := st.(log := st.log + [x]);
    if BearsEvidence(x.kind) then logged.(pending := st.pending + [x.seqNo])
    else if x.kind == AncientDeath && st.ancient.None? then
      logged.(ancient := Some(x.second), pending := st.pending + [x.seqNo])
    else logged
  }

  ghost function FeedStep(st: State, gameEnd: int, x: Input): State {
    if x.second < 0 || st.ended then st
    else
      var advanced :=
        if x.second > st.lastSecond then FinalizeSecond(st, st.lastSecond).(lastSecond := x.second) else st;
      if x.second > gameEnd then advanced else Record(advanced, x)
  }

  ghost function SettleAncient(st: State, gameEnd: int): State {
    if st.ancient.Some? && st.ancient.value < gameEnd
    then FinalizeSecond(st, st.lastSecond).(lastSecond := st.ancient.value) else st
  }

  function EndAtClock(st: State, gameEnd: int): State {
    if st.ended then st else CloseInterval(st, gameEnd + 1, ENDED).(ended := true)
  }

  ghost function EndStep(st: State, gameEnd: int): State {
    if st.ended then st
    else
      var settled := SettleAncient(st, gameEnd);
      EndAtClock(FinalizeSecond(settled, settled.lastSecond), gameEnd)
  }

  // ---- whole runs ----

  ghost function Run(st: State, gameEnd: int, inputs: seq<Input>): State
    decreases |inputs|
  {
    if inputs == [] then st else Run(FeedStep(st, gameEnd, inputs[0]), gameEnd, inputs[1..])
  }

  function Covered(intervals: seq<Interval>): int {
    if intervals == [] then 0
    else
      var n := |intervals| - 1;
      var b := intervals[n].bounds;
      Covered(intervals[..n]) + (if Official(b.phase) then b.end - b.start else 0)
  }

  function Eligible(ancient: Option<int>, gameEnd: int): int {
    match ancient
    case None => gameEnd + 1
    case Some(a) => Min(a + 1, gameEnd + 1)
  }

  function Emit(st: State, gameEnd: int): Output {
    Output(st.intervals, st.resets, Eligible(st.ancient, gameEnd), Covered(st.intervals), st.ancient.None?)
  }

  ghost function FinalState(gameEnd: int, inputs: seq<Input>): State {
    EndStep(Run(INITIAL, gameEnd, inputs), gameEnd)
  }

  /** The result of feeding all of `inputs` to a new engine and ending the stream. */
  ghost function Replay(gameEnd: int, inputs: seq<Input>): Output {
    Emit(FinalState(gameEnd, inputs), gameEnd)
  }

  ghost predicate NonDecreasing(inputs: seq<Input>) {
    forall i, j :: 0 <= i < j < |inputs| ==> inputs[i].second <= inputs[j].second
  }

  function Bounds(intervals: seq<Interval>): Stream {
    seq(|intervals|, i requires 0 <= i < |intervals| => intervals[i].bounds)
  }

  lemma CountAppend(log: Log, x: Input, kind: Kind, lo: int, hi: int)
    ensures Count(log + [x], kind, lo, hi) ==
              Count(log, kind, lo, hi) + (if x.kind == kind && lo <= x.second <= hi then 1 else 0)
  {
    assert (log + [x])[..|log|] == log;
  }

  lemma LastEvidenceAppend(log: Log, x: Input)
    ensures LastEvidence(log + [x]) == if DecisiveRelevant(x.kind) then Max(LastEvidence(log), x.second)
              else LastEvidence(log)
  {
    assert (log + [x])[..|log|] == log;
  }

  lemma {:induction false} RunSplit(st: State, gameEnd: int, xs: seq<Input>, ys: seq<Input>)
    ensures Run(st, gameEnd, xs + ys) == Run(Run(st, gameEnd, xs), gameEnd, ys)
    decreases |xs|
  {
    if xs == [] {
      assert xs + ys == ys;
    } else {
      assert (xs + ys)[1..] == xs[1..] + ys;
      RunSplit(FeedStep(st, gameEnd, xs[0]), gameEnd, xs[1..], ys);
    }
  }
}
