/** The engine as the program runs it: mutable fields, per-second maps and window
    loops. Every method is proved against the functions of EngineSpec; the per-second
    maps are proved to be nothing but an index of the recorded inputs. */
module PhaseEngine {
  import opened Wrappers
  import opened Phases
  import opened EngineSpec

  function At(m: map<int, seq<string>>, t: int): seq<string> {
    if t in m then m[t] else []
  }

  function HeroesAt(m: map<int, set<string>>, t: int): set<string> {
    if t in m then m[t] else {}
  }

  /** `m` files the accounts of the logged inputs of one kind under their second. */
  ghost predicate Indexes(m: map<int, seq<string>>, log: Log, kind: Kind) {
    forall t :: |At(m, t)| == Count(log, kind, t, t)
  }

  ghost predicate IndexesFighters(m: map<int, set<string>>, log: Log) {
    forall t :: HeroesAt(m, t) == Fighters(log, t, t)
  }

  lemma {:induction false} CountSplit(log: Log, kind: Kind, lo: int, mid: int, hi: int)
    requires lo <= mid + 1 <= hi + 1
    ensures Count(log, kind, lo, hi) == Count(log, kind, lo, mid) + Count(log, kind, mid + 1, hi)
  {
    if log != [] {
      CountSplit(log[..|log| - 1], kind, lo, mid, hi);
    }
  }

  lemma CountEmpty(log: Log, kind: Kind, lo: int, hi: int)
    requires hi < lo
    ensures Count(log, kind, lo, hi) == 0
  {
  }

  lemma FightersSplit(log: Log, lo: int, mid: int, hi: int)
    requires lo <= mid + 1 <= hi + 1
    ensures Fighters(log, lo, hi) == Fighters(log, lo, mid) + Fighters(log, mid + 1, hi)
  {
  }

  lemma FightersAppend(log: Log, x: Input, lo: int, hi: int)
    ensures Fighters(log + [x], lo, hi) ==
      Fighters(log, lo, hi) + (if Fights(x) && lo <= x.second <= hi then {x.account} else {})
  {
    forall y | y in log + [x] ensures y in log || y == x {}
    forall y | y in log || y == x ensures y in log + [x] {
      if y == x { assert (log + [x])[|log|] == x; }
    }
  }

  /** No decisive-relevant input lies after the last evidence second. */
  lemma {:induction false} NothingAfterLastEvidence(log: Log, kind: Kind, t: int)
    requires DecisiveRelevant(kind) && t > LastEvidence(log)
    ensures Count(log, kind, t, t) == 0
  {
    if log != [] {
      NothingAfterLastEvidence(log[..|log| - 1], kind, t);
    }
  }

  function Filed(m: map<int, seq<string>>, x: Input, kind: Kind): map<int, seq<string>> {
    if x.kind == kind then m[x.second := At(m, x.second) + [x.account]] else m
  }

  lemma IndexAppend(m: map<int, seq<string>>, log: Log, x: Input, kind: Kind)
    requires Indexes(m, log, kind)
    ensures Indexes(Filed(m, x, kind), log + [x], kind)
  {
    forall t { CountAppend(log, x, kind, t, t); }
  }

  function FighterFiled(m: map<int, set<string>>, x: Input): map<int, set<string>> {
    if x.kind != HeroDeath && x.kind != Damage then m
    else m[x.second := HeroesAt(m, x.second) + (if Fights(x) then {x.account} else {})]
  }

  lemma FighterIndexAppend(m: map<int, set<string>>, log: Log, x: Input)
    requires IndexesFighters(m, log)
    ensures IndexesFighters(FighterFiled(m, x), log + [x])
  {
    forall t { FightersAppend(log, x, t, t); }
  }

  lemma RecordFields(st: State, x: Input)
    ensures var bears := BearsEvidence(x.kind) || (x.kind == AncientDeath && st.ancient.None?);
      Record(st, x) == st.(
        log := st.log + [x],
        ancient := if x.kind == AncientDeath && st.ancient.None? then Some(x.second) else st.ancient,
        pending := if bears then st.pending + [x.seqNo] else st.pending)
  {
  }

  class Engine {
    const gameEnd: int
    var current: Phase
    var currentStart: int
    var roundIndex: int
    var lastSecond: int
    var deaths: map<int, seq<string>>
    var buybacks: map<int, seq<string>>
    var towerDeaths: map<int, seq<string>>
    var raxDeaths: map<int, seq<string>>
    var damageHeroes: map<int, set<string>>
    var ancientDeathSecond: Option<int>
    var lastDecisiveEvidence: int
    var intervals: seq<Interval>
    var resets: seq<ResetEpisode>
    var evidence: seq<int>
    var ended: bool
    ghost var log: Log

    ghost predicate Valid()
      reads this`deaths, this`buybacks, this`towerDeaths, this`raxDeaths, this`damageHeroes, this`lastDecisiveEvidence
      reads this`log
    {
      && Indexes(deaths, log, HeroDeath)
      && Indexes(buybacks, log, HeroBuyback)
      && Indexes(towerDeaths, log, TowerDeath)
      && Indexes(raxDeaths, log, RaxDeath)
      && IndexesFighters(damageHeroes, log)
      && lastDecisiveEvidence == LastEvidence(log)
    }

    ghost function View(): State
      reads this
    {
      State(log, ancientDeathSecond, current, currentStart, roundIndex, lastSecond, intervals, resets, evidence, ended)
    }

    constructor (gameEnd: int)
      ensures Valid() && View() == INITIAL && this.gameEnd == gameEnd
    {
      this.gameEnd := gameEnd;
      current, currentStart, roundIndex, lastSecond := Laning, 0, 0, -1;
      deaths, buybacks, towerDeaths, raxDeaths, damageHeroes := map[], map[], map[], map[], map[];
      ancientDeathSecond, lastDecisiveEvidence := None, -1;
      intervals, resets, evidence, ended, log := [], [], [], false, [];
    }

    method CountInWindow(bySecond: map<int, seq<string>>, s: int, window: nat, ghost kind: Kind) returns (total: nat)
      requires Indexes(bySecond, log, kind)
      ensures total == Count(log, kind, s - window + 1, s)
    {
      total := 0;
      CountEmpty(log, kind, s - window + 1, s - window);
      for t := s - window + 1 to s + 1
        invariant total == Count(log, kind, s - window + 1, t - 1)
      {
        total := total + |At(bySecond, t)|;
        CountSplit(log, kind, s - window + 1, t - 1, t);
      }
    }

    method MajorFight(s: int) returns (fight: bool)
      requires Valid()
      ensures fight <==> MajorFightAt(log, s)
    {
      var heroes: set<string> := {};
      for t := s - 20 to s + 1
        invariant heroes == Fighters(log, s - 20, t - 1)
      {
        heroes := heroes + HeroesAt(damageHeroes, t);
        FightersSplit(log, s - 20, t - 1, t);
      }
      if |heroes| < 6 {
        return false;
      }
      var total := 0;
      CountEmpty(log, HeroDeath, s - 30, s - 31);
      for t := s - 30 to s + 1
        invariant total == Count(log, HeroDeath, s - 30, t - 1)
      {
        total := total + |At(deaths, t)|;
        CountSplit(log, HeroDeath, s - 30, t - 1, t);
      }
      return total >= 2;
    }

    method ShouldEnterMidgame(s: int) returns (enter: bool)
      requires Valid()
      ensures enter <==> EntersMidgame(log, s)
    {
      enter := |At(towerDeaths, s)| > 0;
    }

    method ShouldEnterDecisive(s: int) returns (enter: bool)
      requires Valid()
      ensures enter <==> EntersDecisive(log, s)
    {
      var bought := CountInWindow(buybacks, s, 120, HeroBuyback);
      if bought >= 2 {
        return true;
      }
      if |At(raxDeaths, s)| > 0 {
        return true;
      }
      enter := MajorFight(s);
    }

    /** The scan for buildings and deaths inside the debounce never finds one: the
        test is the debounce alone. */
    method ShouldReset(s: int) returns (reset: bool)
      requires Valid() && current == Decisive
      ensures reset <==> Quiet(log, s)
    {
      if s - lastDecisiveEvidence < 30 {
        return false;
      }
      for t := lastDecisiveEvidence + 1 to s + 1
      {
        NothingAfterLastEvidence(log, TowerDeath, t);
        NothingAfterLastEvidence(log, RaxDeath, t);
        NothingAfterLastEvidence(log, HeroDeath, t);
        if |At(towerDeaths, t)| > 0 || |At(raxDeaths, t)| > 0 || |At(deaths, t)| > 0 {
          return false;
        }
      }
      return true;
    }

    method CloseCurrent(end: int, next: Phase)
      requires Valid()
      modifies this`intervals, this`resets, this`evidence
      ensures Valid() && View() == CloseInterval(old(View()), end, next)
    {
      if end <= currentStart {
        return;
      }
      intervals := intervals + [Interval(PhaseInterval(currentStart, end, current, roundIndex, ""), evidence)];
      if current == Decisive && next == Midgame {
        resets := resets + [ResetEpisode(end, end + 90, evidence)];
      }
      evidence := [];
    }

    method MoveTo(s: int, to: Phase)
      requires Valid()
      modifies this`intervals, this`resets, this`evidence, this`current, this`currentStart, this`roundIndex
      ensures Valid() && View() == Transition(old(View()), s, to)
    {
      if current == to {
        return;
      }
      CloseCurrent(s, to);
      ghost var closed := View();
      hide CloseInterval;
      hide Valid;
      if to == Decisive {
        roundIndex := roundIndex + 1;
      }
      current, currentStart := to, s;
      assert View() == closed.(current := to, currentStart := s, roundIndex := roundIndex);
    }

    method Finalize(s: int)
      requires Valid()
      modifies this`intervals, this`resets, this`evidence, this`current, this`currentStart, this`roundIndex, this`ended
      ensures Valid() && View() == FinalizeSecond(old(View()), s)
    {
      if ended || s < 0 {
        return;
      }
      if ancientDeathSecond.Some? && ancientDeathSecond.value <= s {
        CloseCurrent(s + 1, ENDED);
        ended := true;
        return;
      }
      match current
      case Laning =>
        var enter := ShouldEnterMidgame(s);
        if enter { MoveTo(s, Midgame); }
      case Midgame =>
        var enter := ShouldEnterDecisive(s);
        if enter { MoveTo(s, Decisive); }
      case Decisive =>
        var reset := ShouldReset(s);
        if reset { MoveTo(s, Midgame); }
      case Other(_) =>
    }

    method Feed(x: Input)
      requires Valid()
      modifies this
      ensures Valid() && View() == FeedStep(old(View()), gameEnd, x)
    {
      if x.second < 0 || ended {
        return;
      }
      if x.second > lastSecond {
        Finalize(lastSecond);
        lastSecond := x.second;
      }
      if x.second > gameEnd {
        return;
      }
      Store(x);
    }

    /** Record one accepted input in the maps, the evidence and the log. */
    method Store(x: Input)
      requires Valid()
      modifies this
      ensures Valid() && View() == Record(old(View()), x)
    {
      hide Record, BearsEvidence, Valid;
      ghost var was := View();
      AddEvidence(x);
      FileLogged(x);
      RecordFields(was, x);
    }

    method AddEvidence(x: Input)
      requires Valid()
      modifies this`evidence, this`ancientDeathSecond
      ensures Valid()
      ensures evidence == if BearsEvidence(x.kind) || (x.kind == AncientDeath && old(ancientDeathSecond).None?)
                          then old(evidence) + [x.seqNo] else old(evidence)
      ensures ancientDeathSecond == if x.kind == AncientDeath && old(ancientDeathSecond).None? then Some(x.second)
                else old(ancientDeathSecond)
    {
      match x.kind {
        case AncientDeath =>
          if ancientDeathSecond.None? {
            ancientDeathSecond := Some(x.second);
            evidence := evidence + [x.seqNo];
          }
        case HeroPosition =>
        case Respawn =>
        case _ => evidence := evidence + [x.seqNo];
      }
    }

    method FileLogged(x: Input)
      requires Valid()
      modifies this`deaths, this`buybacks, this`towerDeaths, this`raxDeaths, this`damageHeroes
      modifies this`lastDecisiveEvidence, this`log
      ensures Valid() && log == old(log) + [x]
    {
      File(x);
      log := log + [x];
    }

    method File(x: Input)
      requires Valid()
      modifies this`deaths, this`buybacks, this`towerDeaths, this`raxDeaths, this`damageHeroes
      modifies this`lastDecisiveEvidence
      ensures Indexes(deaths, log + [x], HeroDeath)
      ensures Indexes(buybacks, log + [x], HeroBuyback)
      ensures Indexes(towerDeaths, log + [x], TowerDeath)
      ensures Indexes(raxDeaths, log + [x], RaxDeath)
      ensures IndexesFighters(damageHeroes, log + [x])
      ensures lastDecisiveEvidence == LastEvidence(log + [x])
    {
      IndexAppend(deaths, log, x, HeroDeath);
      IndexAppend(buybacks, log, x, HeroBuyback);
      IndexAppend(towerDeaths, log, x, TowerDeath);
      IndexAppend(raxDeaths, log, x, RaxDeath);
      FighterIndexAppend(damageHeroes, log, x);
      LastEvidenceAppend(log, x);
      UpdateMaps(x);
    }

    method UpdateMaps(x: Input)
      modifies this`deaths, this`buybacks, this`towerDeaths, this`raxDeaths, this`damageHeroes
      modifies this`lastDecisiveEvidence
      ensures deaths == Filed(old(deaths), x, HeroDeath)
      ensures buybacks == Filed(old(buybacks), x, HeroBuyback)
      ensures towerDeaths == Filed(old(towerDeaths), x, TowerDeath)
      ensures raxDeaths == Filed(old(raxDeaths), x, RaxDeath)
      ensures damageHeroes == FighterFiled(old(damageHeroes), x)
      ensures lastDecisiveEvidence == if DecisiveRelevant(x.kind) then Max(old(lastDecisiveEvidence), x.second)
                else old(lastDecisiveEvidence)
    {
      var t := x.second;
      match x.kind {
        case HeroDeath =>
          deaths := deaths[t := At(deaths, t) + [x.account]];
          damageHeroes := damageHeroes[t := HeroesAt(damageHeroes, t) + {x.account}];
          lastDecisiveEvidence := Max(lastDecisiveEvidence, t);
        case HeroBuyback =>
          buybacks := buybacks[t := At(buybacks, t) + [x.account]];
          lastDecisiveEvidence := Max(lastDecisiveEvidence, t);
        case TowerDeath =>
          towerDeaths := towerDeaths[t := At(towerDeaths, t) + [x.account]];
          lastDecisiveEvidence := Max(lastDecisiveEvidence, t);
        case RaxDeath =>
          raxDeaths := raxDeaths[t := At(raxDeaths, t) + [x.account]];
          lastDecisiveEvidence := Max(lastDecisiveEvidence, t);
        case Damage =>
          damageHeroes := damageHeroes[t := HeroesAt(damageHeroes, t) + (if x.account != "" then {x.account} else {})];
        case _ =>
      }
    }

    method End() returns (out: Output)
      requires Valid()
      modifies this
      ensures Valid() && View() == EndStep(old(View()), gameEnd) && out == Emit(View(), gameEnd)
    {
      if !ended {
        FinishAncient();
        Finalize(lastSecond);
        if !ended {
          CloseCurrent(gameEnd + 1, ENDED);
          ended := true;
        }
      }
      out := Summarize();
    }

    /** An ancient that fell before the clock end is settled at its own second. */
    method FinishAncient()
      requires Valid()
      modifies this
      ensures Valid() && View() == SettleAncient(old(View()), gameEnd)
    {
      if ancientDeathSecond.Some? && ancientDeathSecond.value < gameEnd {
        Finalize(lastSecond);
        lastSecond := ancientDeathSecond.value;
      }
    }

    method Summarize() returns (out: Output)
      ensures out == Emit(View(), gameEnd)
    {
      var covered := 0;
      for i := 0 to |intervals|
        invariant covered == Covered(intervals[..i])
      {
        assert intervals[..i + 1][..i] == intervals[..i];
        var b := intervals[i].bounds;
        if Official(b.phase) {
          covered := covered + (b.end - b.start);
        }
      }
      assert intervals[..|intervals|] == intervals;
      var eligible := gameEnd + 1;
      if ancientDeathSecond.Some? && ancientDeathSecond.value + 1 < eligible {
        eligible := ancientDeathSecond.value + 1;
      }
      out := Output(intervals, resets, eligible, covered, ancientDeathSecond.None?);
    }
  }

  /** The whole pipeline stage: a new engine, every input fed in order, the end. */
  method BuildPhases(gameEnd: int, inputs: seq<Input>) returns (out: Output)
    ensures out == Replay(gameEnd, inputs)
  {
    var engine := new Engine(gameEnd);
    for i := 0 to |inputs|
      invariant engine.Valid() && fresh(engine) && engine.gameEnd == gameEnd
      invariant engine.View() == Run(INITIAL, gameEnd, inputs[..i])
    {
      RunSplit(INITIAL, gameEnd, inputs[..i], [inputs[i]]);
      assert inputs[..i] + [inputs[i]] == inputs[..i + 1];
      assert [inputs[i]][1..] == [];
      engine.Feed(inputs[i]);
    }
    assert inputs[..|inputs|] == inputs;
    out := engine.End();
  }
}
