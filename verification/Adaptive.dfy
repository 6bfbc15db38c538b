/** Adaptive compute: a three-level degradation machine with asymmetric hysteresis.
    The implementation keeps two small counters; the specification keeps the whole
    history of verdicts and looks at how it ends. */
module Adaptive {
  import opened Basics
  import opened Crossfade

  datatype Mode = Off | Conservative | Aggressive
  datatype Override = Auto | ForceFull | ForceLite
  datatype Level = Full | Reduced | Minimal

  const DEGRADE_CONSECUTIVE: nat := 3
  const RECOVER_CONSECUTIVE: nat := 5

  // ----- the specification machine

  /** How one block's latency looks from the current level. */
  datatype Verdict = Over | Under | Neutral

  function FullToReduced(mode: Mode): real { if mode == Aggressive then 0.55 else 0.70 }

  function ReducedToMinimal(mode: Mode): real { if mode == Aggressive then 0.70 else 0.85 }

  /** Overload is judged against the next level down, headroom against half the
      threshold that led here. */
  function Judge(mode: Mode, level: Level, ratio: real): Verdict {
    match level
    case Full => if ratio > FullToReduced(mode) then Over else Neutral
    case Reduced =>
      if ratio > ReducedToMinimal(mode) then Over
      else if ratio < FullToReduced(mode) * 0.5 then Under else Neutral
    case Minimal => if ratio < ReducedToMinimal(mode) * 0.5 then Under else Neutral
  }

  /** Length of the unbroken run of `v` that ends the log. */
  function TrailingRun(log: seq<Verdict>, v: Verdict): (n: nat)
    ensures n <= |log|
  {
    if log == [] || log[|log| - 1] != v then 0 else 1 + TrailingRun(log[..|log| - 1], v)
  }

  /** A level, and every verdict reached there. */
  datatype Machine = Machine(level: Level, log: seq<Verdict>)

  function Lower(level: Level): Level { if level == Full then Reduced else Minimal }

  function Higher(level: Level): Level { if level == Minimal then Reduced else Full }

  /** Three overloads in a row degrade, five headrooms in a row recover. */
  function SpecStep(m: Machine, v: Verdict): Machine {
    var log := m.log + [v];
    if m.level != Minimal && TrailingRun(log, Over) >= DEGRADE_CONSECUTIVE then Machine(Lower(m.level), [])
    else if m.level != Full && TrailingRun(log, Under) >= RECOVER_CONSECUTIVE then Machine(Higher(m.level), [])
    else Machine(m.level, log)
  }

  /** The machine after a history of verdicts, starting from full quality. */
  function Replay(vs: seq<Verdict>): Machine {
    if vs == [] then Machine(Full, []) else SpecStep(Replay(vs[..|vs| - 1]), vs[|vs| - 1])
  }

  // ----- properties of every history

  function Index(level: Level): nat {
    match level
    case Full => 0
    case Reduced => 1
    case Minimal => 2
  }

  ghost function Degradations(vs: seq<Verdict>): nat {
    if vs == [] then 0 else
      var init := vs[..|vs| - 1];
      Degradations(init) + if Index(Replay(vs).level) > Index(Replay(init).level) then 1 else 0
  }

  ghost function Recoveries(vs: seq<Verdict>): nat {
    if vs == [] then 0 else
      var init := vs[..|vs| - 1];
      Recoveries(init) + if Index(Replay(vs).level) < Index(Replay(init).level) then 1 else 0
  }

  lemma TrailingPush(log: seq<Verdict>, v: Verdict, w: Verdict)
    ensures TrailingRun(log + [v], w) == if v == w then TrailingRun(log, w) + 1 else 0
  {
    assert (log + [v])[..|log|] == log;
  }

  /** One verdict moves at most one level: Full and Minimal are never adjacent. */
  lemma OneLevelAtATime(m: Machine, v: Verdict)
    ensures -1 <= Index(SpecStep(m, v).level) - Index(m.level) <= 1
  {
    var next := SpecStep(m, v).level;
    assert next == m.level || (m.level != Minimal && next == Lower(m.level)) || (m.level != Full && next == Higher(m.level));
  }

  /** Every degradation is paid for by three updates and every recovery by five, with
      the run now in progress still unspent. */
  lemma {:induction false} TransitionsArePaid(vs: seq<Verdict>)
    ensures Degradations(vs) == Recoveries(vs) + Index(Replay(vs).level)
    ensures 3 * Degradations(vs) + 5 * Recoveries(vs)
            + Max(TrailingRun(Replay(vs).log, Over), TrailingRun(Replay(vs).log, Under)) <= |vs|
  {
    if vs != [] {
      var init, v := vs[..|vs| - 1], vs[|vs| - 1];
      TransitionsArePaid(init);
      TrailingPush(Replay(init).log, v, Over);
      TrailingPush(Replay(init).log, v, Under);
    }
  }

  /** Anti-oscillation: `K` updates contain at most `(K + 10) / 8` degradations. */
  lemma OscillationBound(vs: seq<Verdict>)
    ensures 3 * Degradations(vs) + 5 * Recoveries(vs) <= |vs|
    ensures 8 * Degradations(vs) <= |vs| + 10
  {
    TransitionsArePaid(vs);
  }

  /** Runs shorter than the thresholds are all a machine ever carries. */
  lemma {:induction false} RunsStayShort(vs: seq<Verdict>)
    ensures Replay(vs).level != Minimal ==> TrailingRun(Replay(vs).log, Over) < DEGRADE_CONSECUTIVE
    ensures Replay(vs).level != Full ==> TrailingRun(Replay(vs).log, Under) < RECOVER_CONSECUTIVE
  {
    if vs != [] {
      RunsStayShort(vs[..|vs| - 1]);
    }
  }

  /** Over, but not Under, can be judged at Full, and the other way round at Minimal. */
  ghost predicate Sensible(m: Machine) {
    && (m.level == Full ==> Under !in m.log)
    && (m.level == Minimal ==> Over !in m.log)
  }

  function NextLevel(level: Level, v: Verdict, overRun: nat, underRun: nat): Level {
    if v == Over && overRun + 1 >= DEGRADE_CONSECUTIVE then Lower(level)
    else if v == Under && underRun + 1 >= RECOVER_CONSECUTIVE then Higher(level)
    else level
  }

  /** The next machine, as far as level and run lengths can tell. */
  ghost predicate CountsAs(m: Machine, v: Verdict, next: Machine) {
    && Sensible(next)
    && next.level == NextLevel(m.level, v, TrailingRun(m.log, Over), TrailingRun(m.log, Under))
    && TrailingRun(next.log, Over) == (if v == Over && next.level == m.level then TrailingRun(m.log, Over) + 1 else 0)
    && TrailingRun(next.log, Under) == (if v == Under && next.level == m.level then TrailingRun(m.log, Under) + 1 else 0)
  }

  /** The two run lengths determine the next level and the next run lengths, so an
      implementation may forget the log. */
  lemma CountersSuffice(m: Machine, v: Verdict)
    requires Sensible(m) && (v == Over ==> m.level != Minimal) && (v == Under ==> m.level != Full)
    ensures CountsAs(m, v, SpecStep(m, v))
  {
    TrailingPush(m.log, v, Over);
    TrailingPush(m.log, v, Under);
  }

  /** The verdicts lead to machine `m`. */
  ghost predicate LeadTo(vs: seq<Verdict>, m: Machine) {
    forall ws :: ws == vs ==> Replay(ws) == m
  }

  lemma NextMachine(vs: seq<Verdict>, m: Machine, v: Verdict) returns (next: Machine)
    requires LeadTo(vs, m) && Sensible(m) && (v == Over ==> m.level != Minimal) && (v == Under ==> m.level != Full)
    ensures CountsAs(m, v, next) && LeadTo(vs + [v], next)
  {
    assert Replay(vs) == m;
    assert (vs + [v])[..|vs|] == vs;
    CountersSuffice(m, v);
    next := Replay(vs + [v]);
  }

  // ----- what load moves the machine

  /** The machine after latencies, as fractions of the budget, in one mode. */
  ghost function Feed(mode: Mode, ratios: seq<real>): Machine {
    if ratios == [] then Machine(Full, [])
    else
      var m := Feed(mode, ratios[..|ratios| - 1]);
      SpecStep(m, Judge(mode, m.level, ratios[|ratios| - 1]))
  }

  /** A level, and the latencies since it was entered. */
  datatype Load = Load(level: Level, since: seq<real>)

  /** How many latencies at the end are all above, or all below, a limit. */
  ghost function RunAbove(since: seq<real>, limit: real): nat {
    if since == [] || since[|since| - 1] <= limit then 0 else 1 + RunAbove(since[..|since| - 1], limit)
  }

  ghost function RunBelow(since: seq<real>, limit: real): nat {
    if since == [] || since[|since| - 1] >= limit then 0 else 1 + RunBelow(since[..|since| - 1], limit)
  }

  /** Three in a row above the level's limit degrade, five in a row below half the limit
      that led to the level recover, and nothing else moves it. */
  ghost function LoadStep(mode: Mode, l: Load, ratio: real): Load {
    var since := l.since + [ratio];
    match l.level
    case Full =>
      if RunAbove(since, if mode == Aggressive then 0.55 else 0.70) == 3 then Load(Reduced, []) else Load(Full, since)
    case Reduced =>
      if RunAbove(since, if mode == Aggressive then 0.70 else 0.85) == 3 then Load(Minimal, [])
      else if RunBelow(since, if mode == Aggressive then 0.275 else 0.35) == 5 then Load(Full, [])
      else Load(Reduced, since)
    case Minimal =>
      if RunBelow(since, if mode == Aggressive then 0.35 else 0.425) == 5 then Load(Reduced, []) else Load(Minimal, since)
  }

  ghost function LoadAfter(mode: Mode, ratios: seq<real>): Load {
    if ratios == [] then Load(Full, [])
    else LoadStep(mode, LoadAfter(mode, ratios[..|ratios| - 1]), ratios[|ratios| - 1])
  }

  lemma RunPush(since: seq<real>, ratio: real, limit: real)
    ensures RunAbove(since + [ratio], limit) == if ratio > limit then RunAbove(since, limit) + 1 else 0
    ensures RunBelow(since + [ratio], limit) == if ratio < limit then RunBelow(since, limit) + 1 else 0
  {
    assert (since + [ratio])[..|since|] == since;
  }

  /** The runs of the log are the runs of the latencies, and no run is complete. */
  ghost predicate Matches(mode: Mode, m: Machine, l: Load) {
    && m.level == l.level && Sensible(m)
    && match l.level
       case Full =>
         TrailingRun(m.log, Over) == RunAbove(l.since, if mode == Aggressive then 0.55 else 0.70) < 3
       case Reduced =>
         && TrailingRun(m.log, Over) == RunAbove(l.since, if mode == Aggressive then 0.70 else 0.85) < 3
         && TrailingRun(m.log, Under) == RunBelow(l.since, if mode == Aggressive then 0.275 else 0.35) < 5
       case Minimal =>
         TrailingRun(m.log, Under) == RunBelow(l.since, if mode == Aggressive then 0.35 else 0.425) < 5
  }

  lemma FullMatches(mode: Mode, m: Machine, next: Machine, l: Load, ratio: real)
    requires Matches(mode, m, l) && l.level == Full && CountsAs(m, Judge(mode, Full, ratio), next)
    ensures Matches(mode, next, LoadStep(mode, l, ratio))
  {
    RunPush(l.since, ratio, if mode == Aggressive then 0.55 else 0.70);
  }

  lemma ReducedMatches(mode: Mode, m: Machine, next: Machine, l: Load, ratio: real)
    requires Matches(mode, m, l) && l.level == Reduced && CountsAs(m, Judge(mode, Reduced, ratio), next)
    ensures Matches(mode, next, LoadStep(mode, l, ratio))
  {
    RunPush(l.since, ratio, if mode == Aggressive then 0.70 else 0.85);
    RunPush(l.since, ratio, if mode == Aggressive then 0.275 else 0.35);
  }

  lemma MinimalMatches(mode: Mode, m: Machine, next: Machine, l: Load, ratio: real)
    requires Matches(mode, m, l) && l.level == Minimal && CountsAs(m, Judge(mode, Minimal, ratio), next)
    ensures Matches(mode, next, LoadStep(mode, l, ratio))
  {
    RunPush(l.since, ratio, if mode == Aggressive then 0.35 else 0.425);
  }

  lemma MatchesStep(mode: Mode, m: Machine, next: Machine, l: Load, ratio: real)
    requires Matches(mode, m, l) && CountsAs(m, Judge(mode, m.level, ratio), next)
    ensures Matches(mode, next, LoadStep(mode, l, ratio))
  {
    match l.level
    case Full => FullMatches(mode, m, next, l, ratio);
    case Reduced => ReducedMatches(mode, m, next, l, ratio);
    case Minimal => MinimalMatches(mode, m, next, l, ratio);
  }

  /** So over any sequence of latencies the level is the one those runs dictate. */
  lemma {:induction false} LoadDecidesLevel(mode: Mode, ratios: seq<real>)
    ensures Feed(mode, ratios).level == LoadAfter(mode, ratios).level
    ensures Matches(mode, Feed(mode, ratios), LoadAfter(mode, ratios))
  {
    if ratios != [] {
      var init := ratios[..|ratios| - 1];
      LoadDecidesLevel(mode, init);
      CountersSuffice(Feed(mode, init), Judge(mode, Feed(mode, init).level, ratios[|ratios| - 1]));
      MatchesStep(mode, Feed(mode, init), Feed(mode, ratios), LoadAfter(mode, init), ratios[|ratios| - 1]);
    }
  }

  // ----- the implementation

  class RtStatusFlags {
    var degradeReduced: bool
    var degradeMinimal: bool
    var degradeTransitionsTotal: nat

    constructor ()
      ensures Encodes(Full)
    {
      degradeReduced, degradeMinimal, degradeTransitionsTotal := false, false, 0;
    }

    /** The two degrade bits are a unary encoding of the level. */
    ghost predicate Encodes(level: Level)
      reads this
    {
      degradeReduced == (level != Full) && degradeMinimal == (level == Minimal)
    }
  }

  /** Level, fade origin, fade, and the status word. */
  datatype Observed =
    Observed(level: Level, origin: Level, fade: Fade, reduced: bool, minimal: bool, transitions: nat)
  {
    predicate FlagsEncodeLevel() {
      reduced == (level != Full) && minimal == (level == Minimal)
    }
  }

  /** What an update does to the status flags and the crossfade: nothing without a
      transition; with one, the flags encode the new level, the old level is kept as
      fade origin unless a fade is already running, and a running fade of the same
      duration keeps its place. */
  ghost predicate Evolves(a: Observed, b: Observed, sampleRate: nat)
    requires a.fade.Valid()
  {
    if b.level == a.level then b == a
    else
      && b.FlagsEncodeLevel()
      && b.transitions == a.transitions + 1
      && b.fade == Retarget(a.fade, CrossfadeSamples(sampleRate))
      && b.origin == if a.fade.phase == Active then a.origin else a.level
  }

  class AdaptiveCompute {
    var state: Level
    var prevState: Level
    var overloadCounter: nat
    var recoveryCounter: nat
    var crossfade: Phase
    var mode: Mode
    var crossfadeTotal: nat
    var crossfadeElapsed: nat
    var slimOverride: Override

    /** Verdicts of every effective update since construction, reset or mode Off. */
    ghost var verdicts: seq<Verdict>

    /** The machine they lead to. */
    ghost var machine: Machine

    ghost predicate Valid()
      reads this
    {
      LeadTo(verdicts, machine) && Tracks(machine) && Fading().Valid()
    }

    /** Level and counters are those of machine `m`. */
    ghost predicate Tracks(m: Machine)
      reads this
    {
      && state == m.level && Sensible(m)
      && overloadCounter == TrailingRun(m.log, Over)
      && recoveryCounter == TrailingRun(m.log, Under)
    }

    /** The crossfade, as a value. */
    function Fading(): Fade
      reads this
    {
      Fade(crossfade, crossfadeTotal, crossfadeElapsed)
    }

    constructor (mode: Mode)
      ensures Valid() && verdicts == [] && this.mode == mode && slimOverride == Auto && crossfade == Idle
    {
      state, prevState, overloadCounter, recoveryCounter := Full, Full, 0, 0;
      crossfade, crossfadeTotal, crossfadeElapsed := Idle, 0, 0;
      this.mode, slimOverride := mode, Auto;
      verdicts, machine := [], Machine(Full, []);
    }

    method Reset(rtStatus: RtStatusFlags)
      modifies this, rtStatus
      ensures Valid() && verdicts == [] && state == Full && crossfade == Idle && rtStatus.Encodes(Full)
      ensures mode == old(mode) && slimOverride == old(slimOverride)
    {
      state, prevState, overloadCounter, recoveryCounter := Full, Full, 0, 0;
      crossfade, crossfadeTotal, crossfadeElapsed := Idle, 0, 0;
      rtStatus.degradeReduced := false;
      rtStatus.degradeMinimal := false;
      verdicts, machine := [], Machine(Full, []);
    }

    method SetMode(newMode: Mode, rtStatus: RtStatusFlags)
      requires Valid()
      modifies this, rtStatus
      ensures Valid() && mode == newMode && slimOverride == old(slimOverride)
      ensures newMode == Off ==> verdicts == [] && state == Full && crossfade == Idle && rtStatus.Encodes(Full)
      ensures newMode != Off ==>
        && verdicts == old(verdicts) && Observe(rtStatus) == old(Observe(rtStatus))
        && overloadCounter == old(overloadCounter) && recoveryCounter == old(recoveryCounter)
    {
      mode := newMode;
      if mode == Off {
        Reset(rtStatus);
      }
    }

    method SetSlimOverride(ov: Override)
      requires Valid()
      modifies this`slimOverride
      ensures Valid() && slimOverride == ov
    {
      slimOverride := ov;
    }

    /** Feeds one latency measurement. Two counters suffice to follow the machine that
        remembers everything. */
    method Update(latencyUs: nat, budgetUs: nat, sampleRate: nat, rtStatus: RtStatusFlags)
      requires Valid()
      modifies this, rtStatus
      ensures Valid() && mode == old(mode) && slimOverride == old(slimOverride)
      ensures mode == Off || budgetUs == 0 || slimOverride != Auto ==>
        verdicts == old(verdicts) && Observe(rtStatus) == old(Observe(rtStatus))
      ensures mode != Off && budgetUs != 0 && slimOverride == Auto ==>
        verdicts == old(verdicts) + [Judge(old(mode), old(state), latencyUs as real / budgetUs as real)]
      ensures state != old(state) ==>
        rtStatus.degradeReduced == (state != Full) && rtStatus.degradeMinimal == (state == Minimal)
      ensures Evolves(old(Observe(rtStatus)), Observe(rtStatus), sampleRate)
    {
      if mode == Off || budgetUs == 0 || slimOverride != Auto {
        return;
      }
      Measure(latencyUs as real / budgetUs as real, sampleRate, rtStatus);
    }

    /** An effective update: one more verdict for the machine to follow. */
    method Measure(ratio: real, sampleRate: nat, rtStatus: RtStatusFlags)
      requires Valid()
      modifies this`state, this`prevState, this`overloadCounter, this`recoveryCounter, this`verdicts, this`machine
      modifies this`crossfade, this`crossfadeTotal, this`crossfadeElapsed, rtStatus
      ensures Valid() && Evolves(old(Observe(rtStatus)), Observe(rtStatus), sampleRate)
      ensures verdicts == old(verdicts) + [Judge(mode, old(state), ratio)]
    {
      ghost var v := Judge(mode, state, ratio);
      ghost var next := NextMachine(verdicts, machine, v);
      Dispatch(ratio, sampleRate, rtStatus, machine, next);
      verdicts, machine := verdicts + [v], next;
    }

    /** Dispatches an effective update to the current level's arm. */
    method Dispatch(ratio: real, sampleRate: nat, rtStatus: RtStatusFlags, ghost m: Machine, ghost next: Machine)
      requires Tracks(m) && Fading().Valid() && CountsAs(m, Judge(mode, state, ratio), next)
      modifies this`state, this`prevState, this`overloadCounter, this`recoveryCounter
      modifies this`crossfade, this`crossfadeTotal, this`crossfadeElapsed, rtStatus
      ensures Tracks(next) && Fading().Valid() && Evolves(old(Observe(rtStatus)), Observe(rtStatus), sampleRate)
    {
      match state {
        case Full => UpdateFull(ratio, sampleRate, rtStatus, m, next);
        case Reduced => UpdateReduced(ratio, sampleRate, rtStatus, m, next);
        case Minimal => UpdateMinimal(ratio, sampleRate, rtStatus, m, next);
      }
    }

    /** What the host can observe. */
    ghost function Observe(rtStatus: RtStatusFlags): Observed
      reads this, rtStatus
    {
      Observed(state, prevState, Fading(), rtStatus.degradeReduced, rtStatus.degradeMinimal, rtStatus.degradeTransitionsTotal)
    }

    method UpdateFull(ratio: real, sampleRate: nat, rtStatus: RtStatusFlags, ghost m: Machine, ghost next: Machine)
      requires Tracks(m) && Fading().Valid() && state == Full && CountsAs(m, Judge(mode, Full, ratio), next)
      modifies this`state, this`prevState, this`overloadCounter, this`recoveryCounter
      modifies this`crossfade, this`crossfadeTotal, this`crossfadeElapsed, rtStatus
      ensures Tracks(next) && Fading().Valid() && Evolves(old(Observe(rtStatus)), Observe(rtStatus), sampleRate)
    {
      if ratio > FullToReduced(mode) {
        overloadCounter := overloadCounter + 1;
        recoveryCounter := 0;
        if overloadCounter >= DEGRADE_CONSECUTIVE {
          TransitionTo(Reduced, sampleRate, rtStatus);
        }
      } else {
        overloadCounter := 0;
      }
    }

    method UpdateReduced(ratio: real, sampleRate: nat, rtStatus: RtStatusFlags, ghost m: Machine, ghost next: Machine)
      requires Tracks(m) && Fading().Valid() && state == Reduced && CountsAs(m, Judge(mode, Reduced, ratio), next)
      modifies this`state, this`prevState, this`overloadCounter, this`recoveryCounter
      modifies this`crossfade, this`crossfadeTotal, this`crossfadeElapsed, rtStatus
      ensures Tracks(next) && Fading().Valid() && Evolves(old(Observe(rtStatus)), Observe(rtStatus), sampleRate)
    {
      if ratio > ReducedToMinimal(mode) {
        overloadCounter := overloadCounter + 1;
        recoveryCounter := 0;
        if overloadCounter >= DEGRADE_CONSECUTIVE {
          TransitionTo(Minimal, sampleRate, rtStatus);
        }
      } else if ratio < FullToReduced(mode) * 0.5 {
        recoveryCounter := recoveryCounter + 1;
        overloadCounter := 0;
        if recoveryCounter >= RECOVER_CONSECUTIVE {
          TransitionTo(Full, sampleRate, rtStatus);
          recoveryCounter := 0;
        }
      } else {
        overloadCounter := 0;
        recoveryCounter := 0;
      }
    }

    method UpdateMinimal(ratio: real, sampleRate: nat, rtStatus: RtStatusFlags, ghost m: Machine, ghost next: Machine)
      requires Tracks(m) && Fading().Valid() && state == Minimal && CountsAs(m, Judge(mode, Minimal, ratio), next)
      modifies this`state, this`prevState, this`overloadCounter, this`recoveryCounter
      modifies this`crossfade, this`crossfadeTotal, this`crossfadeElapsed, rtStatus
      ensures Tracks(next) && Fading().Valid() && Evolves(old(Observe(rtStatus)), Observe(rtStatus), sampleRate)
    {
      if ratio < ReducedToMinimal(mode) * 0.5 {
        recoveryCounter := recoveryCounter + 1;
        if recoveryCounter >= RECOVER_CONSECUTIVE {
          TransitionTo(Reduced, sampleRate, rtStatus);
          recoveryCounter := 0;
        }
      } else {
        recoveryCounter := 0;
      }
    }

    /** Starts, or re-targets, the crossfade to a new level. */
    method TransitionTo(newState: Level, sampleRate: nat, rtStatus: RtStatusFlags)
      requires Fading().Valid()
      modifies this`state, this`prevState, this`overloadCounter, this`recoveryCounter
      modifies this`crossfade, this`crossfadeTotal, this`crossfadeElapsed, rtStatus
      ensures state == newState
      ensures newState == old(state) ==> overloadCounter == old(overloadCounter) && recoveryCounter == old(recoveryCounter)
      ensures newState != old(state) ==>
        && overloadCounter == 0 && recoveryCounter == 0
        && rtStatus.degradeReduced == (newState != Full) && rtStatus.degradeMinimal == (newState == Minimal)
      ensures Fading().Valid() && Evolves(old(Observe(rtStatus)), Observe(rtStatus), sampleRate)
    {
      if state == newState {
        return;
      }
      if crossfade != Active {
        prevState := state;
      }
      state, overloadCounter, recoveryCounter := newState, 0, 0;
      var newTotal := CrossfadeSamples(sampleRate);
      var elapsed := if crossfade == Active then Rebased(crossfadeElapsed, crossfadeTotal, newTotal) else 0;
      crossfade, crossfadeTotal, crossfadeElapsed := Active, newTotal, elapsed;
      rtStatus.degradeTransitionsTotal := rtStatus.degradeTransitionsTotal + 1;
      match newState {
        case Full =>
          rtStatus.degradeReduced := false;
          rtStatus.degradeMinimal := false;
        case Reduced =>
          rtStatus.degradeReduced := true;
          rtStatus.degradeMinimal := false;
        case Minimal =>
          rtStatus.degradeReduced := true;
          rtStatus.degradeMinimal := true;
      }
    }

    /** The gain of the running crossfade, which advances by `frameAdvance` samples. */
    method CrossfadeMultiplier(frameAdvance: nat) returns (gain: real)
      requires Valid()
      modifies this`crossfade, this`crossfadeElapsed
      ensures Valid() && 0.0 <= gain <= 1.0
      ensures Fading() == Advance(old(Fading()), frameAdvance)
      ensures gain == if old(crossfade) == Active then Gain(old(Fading()), frameAdvance) else if state == Full then 0.0 else 1.0
    {
      if crossfade == Idle {
        gain := if state == Full then 0.0 else 1.0;
      } else {
        var progress := if crossfadeTotal == 0 then 1.0 else Progress(crossfadeElapsed, crossfadeTotal);
        if crossfadeElapsed + frameAdvance >= crossfadeTotal {
          crossfade, crossfadeElapsed := Idle, 0;
          gain := 1.0;
        } else {
          crossfadeElapsed := crossfadeElapsed + frameAdvance;
          gain := progress;
        }
      }
    }
  }
}
