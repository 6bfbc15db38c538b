/** The noise gate: a four-state machine with hold and fade counters, and the gain
    it applies to each sample of a block. */
module Gate {
  import opened Basics

  datatype Phase = Open | FadingOut | Closed | FadingIn

  datatype Params = Params(holdFrames: nat, fadeFrames: nat)

  /** One call of `Update`: detected level, thresholds, timing and block length. */
  datatype Block = Block(value: real, thresholdOpen: real, thresholdClose: real, params: Params, n: nat)

  datatype State = State(phase: Phase, hold: nat, fade: nat, mult: real, rampStart: real, ramp: nat)

  /** Subtraction that saturates at zero. */
  function Monus(a: nat, b: nat): nat { if a > b then a - b else 0 }

  /** `a` steps of a fade that takes `f` steps in all. */
  function Ratio(a: int, f: nat): real {
    a as real * (1.0 / Max(f, 1) as real)
  }

  // ----- one step of the machine

  const Initial: State := State(Open, 0, 0, 1.0, 1.0, 0)

  predicate Below(b: Block) { b.value < b.thresholdClose }

  predicate Above(b: Block) { b.value >= b.thresholdOpen }

  /** The block moves the gain up: a closed or closing gate sees the open threshold
      reached, or an opening one is not interrupted. */
  predicate Rises(s: State, b: Block) {
    match s.phase
    case Open => false
    case FadingOut | Closed => Above(b)
    case FadingIn => !Below(b)
  }

  /** The block moves the gain down. */
  predicate Falls(s: State, b: Block) {
    match s.phase
    case Open | Closed => false
    case FadingOut => !Above(b)
    case FadingIn => Below(b)
  }

  /** From fade position `from`, `n` samples up: either still fading in or fully open. */
  function RiseTo(s: State, from: nat, hold: nat, b: Block): State {
    var f := b.params.fadeFrames;
    if from + b.n < f then
      s.(phase := FadingIn, fade := from + b.n, mult := Ratio(from + b.n, f), ramp := b.n, hold := hold)
    else
      s.(phase := Open, fade := f, mult := 1.0, ramp := Monus(f, from), hold := 0)
  }

  /** From fade position `from`, `n` samples down: either still fading out or closed. */
  function FallTo(s: State, from: nat, b: Block): State {
    if from > b.n then
      s.(phase := FadingOut, fade := from - b.n, mult := Ratio(from - b.n, b.params.fadeFrames), ramp := b.n)
    else
      s.(phase := Closed, fade := 0, mult := 0.0, ramp := from)
  }

  /** The machine's transition, as moves of the fade position. */
  function Step(s: State, b: Block): State {
    var f := b.params.fadeFrames;
    var from := Min(s.fade, f);
    var t := s.(rampStart := s.mult, fade := from, ramp := 0);
    if Rises(s, b) then
      if s.phase == Closed then RiseTo(t, 0, 0, b) else RiseTo(t, from, s.hold, b)
    else if Falls(s, b) then FallTo(t, from, b)
    else if s.phase == Closed then t
    else if !Below(b) then t.(hold := 0)
    else if s.hold + b.n < b.params.holdFrames then t.(hold := s.hold + b.n)
    else if f == 0 then t.(phase := Closed, hold := s.hold + b.n, mult := 0.0, fade := 0)
    else t.(phase := FadingOut, hold := s.hold + b.n, fade := f)
  }

  // ----- the gain a block's samples receive

  const GAIN_EPSILON: real := 0.000001
  const STEP_EPSILON: real := 0.000000001

  /** The mono kernels skip near-unity gains and flatten negligible slopes; the stereo
      kernels are called directly and do neither. */
  datatype Kernel = Mono | Stereo

  function Scaled(kernel: Kernel, gain: real): real {
    if kernel == Mono && Abs(gain - 1.0) < GAIN_EPSILON then 1.0 else gain
  }

  function Ramped(kernel: Kernel, start: real, step: real, k: nat): real {
    if kernel == Mono && Abs(step) < STEP_EPSILON then Scaled(kernel, start) else start + k as real * step
  }

  /** The gain after a ramp, with exact silence and untouched unity. */
  function Steady(gain: real): real {
    if gain == 0.0 then 0.0 else if Abs(gain - 1.0) > GAIN_EPSILON then gain else 1.0
  }

  function RampGain(kernel: Kernel, start: real, end: real, length: nat, k: nat): real
    requires length > 0
  {
    if Abs(start - end) < GAIN_EPSILON then Scaled(kernel, end)
    else Ramped(kernel, start, (end - start) / length as real, k)
  }

  /** The factor applied to sample `k` by a gate in state `s` over `n` processed samples. */
  function GainAt(kernel: Kernel, s: State, n: nat, k: nat): real
    requires n > 0
  {
    if s.ramp == 0 then Steady(s.mult)
    else if k < s.ramp || s.ramp >= n then RampGain(kernel, s.rampStart, s.mult, Min(s.ramp, n), k)
    else Steady(s.mult)
  }

  /** The three cases of the gain: no ramp, a ramp over the whole block, and a ramp that
      ends inside it. */
  lemma GainCases(kernel: Kernel, s: State, n: nat, k: nat)
    requires n > 0
    ensures s.ramp == 0 ==> GainAt(kernel, s, n, k) == Steady(s.mult)
    ensures s.ramp >= n ==> GainAt(kernel, s, n, k) == RampGain(kernel, s.rampStart, s.mult, n, k)
    ensures 0 < s.ramp < n ==>
      GainAt(kernel, s, n, k) == if k < s.ramp then RampGain(kernel, s.rampStart, s.mult, s.ramp, k) else Steady(s.mult)
  {
  }

  /** The samples of a buffer after a gate in state `s`, applied over `n` samples. */
  ghost function Amplified(kernel: Kernel, s: State, n: nat, xs: seq<real>): (ys: seq<real>)
    requires n > 0
    ensures |ys| == |xs| && forall k :: 0 <= k < |xs| ==> ys[k] == xs[k] * GainAt(kernel, s, n, k)
  {
    seq(|xs|, k requires 0 <= k < |xs| => xs[k] * GainAt(kernel, s, n, k))
  }

  lemma AmplifiedInTwoParts(kernel: Kernel, s: State, n: nat, xs: seq<real>, ys: seq<real>)
    requires 0 < s.ramp < n && |xs| == |ys|
    requires forall k :: 0 <= k < |xs| && k < s.ramp ==> ys[k] == xs[k] * RampGain(kernel, s.rampStart, s.mult, s.ramp, k)
    requires forall k :: s.ramp <= k < |xs| ==> ys[k] == xs[k] * Steady(s.mult)
    ensures ys == Amplified(kernel, s, n, xs)
  {
    forall k | 0 <= k < |xs| ensures ys[k] == Amplified(kernel, s, n, xs)[k] {
      GainCases(kernel, s, n, k);
    }
  }

  class DynamicHysteresis {
    var state: Phase
    var holdCounter: nat
    var fadeCounter: nat
    var currentMultiplier: real
    var rampStartMultiplier: real
    var rampSamples: nat

    function View(): State
      reads this
    {
      State(state, holdCounter, fadeCounter, currentMultiplier, rampStartMultiplier, rampSamples)
    }

    constructor ()
      ensures View() == Initial && state == Open && currentMultiplier == 1.0 && rampSamples == 0
    {
      state, holdCounter, fadeCounter := Open, 0, 0;
      currentMultiplier, rampStartMultiplier, rampSamples := 1.0, 1.0, 0;
    }

    method Reset()
      modifies this
      ensures View() == Initial && state == Open && currentMultiplier == 1.0 && rampSamples == 0
    {
      state, holdCounter, fadeCounter := Open, 0, 0;
      currentMultiplier, rampStartMultiplier, rampSamples := 1.0, 1.0, 0;
    }

    method Update(b: Block)
      modifies this
      ensures View() == Step(old(View()), b)
    {
      rampStartMultiplier := currentMultiplier;
      var invFade := 1.0 / Max(b.params.fadeFrames, 1) as real;
      fadeCounter := Min(fadeCounter, b.params.fadeFrames);
      match state {
        case Open => UpdateOpen(b);
        case FadingOut => UpdateFadingOut(b, invFade);
        case Closed => UpdateClosed(b, invFade);
        case FadingIn => UpdateFadingIn(b, invFade);
      }
    }

    /** State on entry to a handler: ramp start latched, fade counter clamped. */
    ghost predicate Entered(b: Block)
      reads this
    {
      rampStartMultiplier == currentMultiplier && fadeCounter <= b.params.fadeFrames
    }

    method UpdateOpen(b: Block)
      requires state == Open && Entered(b)
      modifies this
      ensures View() == Step(old(View()), b)
    {
      if b.value < b.thresholdClose {
        holdCounter := holdCounter + b.n;
        if holdCounter >= b.params.holdFrames {
          if b.params.fadeFrames == 0 {
            state, currentMultiplier, fadeCounter, rampSamples := Closed, 0.0, 0, 0;
          } else {
            state, fadeCounter, rampSamples := FadingOut, b.params.fadeFrames, 0;
          }
        } else {
          rampSamples := 0;
        }
      } else {
        holdCounter, rampSamples := 0, 0;
      }
    }

    method UpdateFadingOut(b: Block, invFade: real)
      requires state == FadingOut && Entered(b) && invFade == 1.0 / Max(b.params.fadeFrames, 1) as real
      modifies this
      ensures View() == Step(old(View()), b)
    {
      if b.value >= b.thresholdOpen {
        state := FadingIn;
        if fadeCounter + b.n < b.params.fadeFrames {
          fadeCounter := fadeCounter + b.n;
          currentMultiplier := fadeCounter as real * invFade;
          rampSamples := b.n;
        } else {
          rampSamples := Monus(b.params.fadeFrames, fadeCounter);
          state, currentMultiplier, fadeCounter, holdCounter := Open, 1.0, b.params.fadeFrames, 0;
        }
      } else if fadeCounter > b.n {
        fadeCounter := fadeCounter - b.n;
        currentMultiplier := fadeCounter as real * invFade;
        rampSamples := b.n;
      } else {
        rampSamples := fadeCounter;
        state, currentMultiplier, fadeCounter := Closed, 0.0, 0;
      }
    }

    method UpdateClosed(b: Block, invFade: real)
      requires state == Closed && Entered(b) && invFade == 1.0 / Max(b.params.fadeFrames, 1) as real
      modifies this
      ensures View() == Step(old(View()), b)
    {
      if b.value >= b.thresholdOpen {
        if b.params.fadeFrames == 0 {
          state, currentMultiplier, fadeCounter, holdCounter, rampSamples := Open, 1.0, 0, 0, 0;
        } else {
          state, fadeCounter, holdCounter := FadingIn, 0, 0;
          if b.n < b.params.fadeFrames {
            fadeCounter := fadeCounter + b.n;
            currentMultiplier := fadeCounter as real * invFade;
            rampSamples := b.n;
          } else {
            rampSamples := Monus(b.params.fadeFrames, fadeCounter);
            state, currentMultiplier, fadeCounter := Open, 1.0, b.params.fadeFrames;
          }
        }
      } else {
        rampSamples := 0;
      }
    }

    method UpdateFadingIn(b: Block, invFade: real)
      requires state == FadingIn && Entered(b) && invFade == 1.0 / Max(b.params.fadeFrames, 1) as real
      modifies this
      ensures View() == Step(old(View()), b)
    {
      if b.value < b.thresholdClose {
        state := FadingOut;
        if fadeCounter > b.n {
          fadeCounter := fadeCounter - b.n;
          currentMultiplier := fadeCounter as real * invFade;
          rampSamples := b.n;
        } else {
          rampSamples := fadeCounter;
          state, currentMultiplier, fadeCounter := Closed, 0.0, 0;
        }
      } else if fadeCounter + b.n < b.params.fadeFrames {
        fadeCounter := fadeCounter + b.n;
        currentMultiplier := fadeCounter as real * invFade;
        rampSamples := b.n;
      } else {
        rampSamples := Monus(b.params.fadeFrames, fadeCounter);
        state, currentMultiplier, fadeCounter, holdCounter := Open, 1.0, b.params.fadeFrames, 0;
      }
    }

    /** Multiplies every sample of `buffer` by the gain the state prescribes. The
        ramp is paced by the shorter of buffer and block, but laid over the whole buffer. */
    method ApplyGainRt(buffer: array<real>, nSamples: nat)
      modifies buffer
      ensures buffer[..] ==
        if Min(buffer.Length, nSamples) == 0 then old(buffer[..])
        else Amplified(Mono, View(), Min(buffer.Length, nSamples), old(buffer[..]))
    {
      var n := Min(buffer.Length, nSamples);
      if n > 0 {
        ApplyTo(Mono, buffer, buffer.Length, n);
        assert old(buffer[..buffer.Length]) == old(buffer[..]);
      }
    }

    /** The stereo form: both channels over their common prefix, tails untouched. */
    method ApplyGainRtStereo(left: array<real>, right: array<real>, nSamples: nat)
      requires left != right
      modifies left, right
      ensures var n := Min(Min(left.Length, right.Length), nSamples);
        if n == 0 then left[..] == old(left[..]) && right[..] == old(right[..])
        else
          && left[..] == Amplified(Stereo, View(), n, old(left[..n])) + old(left[n..])
          && right[..] == Amplified(Stereo, View(), n, old(right[..n])) + old(right[n..])
    {
      var n := Min(Min(left.Length, right.Length), nSamples);
      if n > 0 {
        ApplyTo(Stereo, left, n, n);
        ApplyTo(Stereo, right, n, n);
      }
    }

    method ApplyTo(kernel: Kernel, buffer: array<real>, to: nat, n: nat)
      requires 0 < n <= to <= buffer.Length
      modifies buffer
      ensures buffer[..] == Amplified(kernel, View(), n, old(buffer[..to])) + old(buffer[to..])
    {
      if rampSamples == 0 {
        ApplySteady(kernel, buffer, to, n);
      } else if rampSamples >= n {
        ApplyRamp(kernel, buffer, to, n);
      } else {
        ApplyRampEnd(kernel, buffer, to, n);
      }
    }

    /** Case A: no ramp. */
    method ApplySteady(kernel: Kernel, buffer: array<real>, to: nat, n: nat)
      requires 0 < n <= to <= buffer.Length && rampSamples == 0
      modifies buffer
      ensures buffer[..] == Amplified(kernel, View(), n, old(buffer[..to])) + old(buffer[to..])
    {
      SettlePart(buffer, 0, to, currentMultiplier);
      forall k | 0 <= k < to ensures buffer[k] == Amplified(kernel, View(), n, old(buffer[..to]))[k] {
        GainCases(kernel, View(), n, k);
      }
    }

    /** Case B: the ramp spans the block. */
    method ApplyRamp(kernel: Kernel, buffer: array<real>, to: nat, n: nat)
      requires 0 < n <= to <= buffer.Length && rampSamples >= n
      modifies buffer
      ensures buffer[..] == Amplified(kernel, View(), n, old(buffer[..to])) + old(buffer[to..])
    {
      RampPart(kernel, buffer, to, rampStartMultiplier, currentMultiplier, n);
      forall k | 0 <= k < to ensures buffer[k] == Amplified(kernel, View(), n, old(buffer[..to]))[k] {
        GainCases(kernel, View(), n, k);
      }
    }

    /** Case C: the ramp ends inside the block. */
    method ApplyRampEnd(kernel: Kernel, buffer: array<real>, to: nat, n: nat)
      requires 0 < n <= to <= buffer.Length && 0 < rampSamples < n
      modifies buffer
      ensures buffer[..] == Amplified(kernel, View(), n, old(buffer[..to])) + old(buffer[to..])
    {
      ghost var before := buffer[..to];
      RampThenSettle(kernel, buffer, Min(rampSamples, n), to, rampStartMultiplier, currentMultiplier);
      AmplifiedInTwoParts(kernel, View(), n, before, buffer[..to]);
    }
  }

  method RampThenSettle(kernel: Kernel, buffer: array<real>, rampLen: nat, to: nat, start: real, end: real)
    requires 0 < rampLen <= to <= buffer.Length
    modifies buffer
    ensures forall k :: 0 <= k < rampLen ==> buffer[k] == old(buffer[k]) * RampGain(kernel, start, end, rampLen, k)
    ensures forall k :: rampLen <= k < to ==> buffer[k] == old(buffer[k]) * Steady(end)
    ensures forall k :: to <= k < buffer.Length ==> buffer[k] == old(buffer[k])
  {
    RampPart(kernel, buffer, rampLen, start, end, rampLen);
    SettlePart(buffer, rampLen, to, end);
  }

  /** The first `to` samples of a buffer ramp from `start` towards `end` over `length` samples. */
  method RampPart(kernel: Kernel, buffer: array<real>, to: nat, start: real, end: real, length: nat)
    requires to <= buffer.Length && length > 0
    modifies buffer
    ensures forall k :: 0 <= k < to ==> buffer[k] == old(buffer[k]) * RampGain(kernel, start, end, length, k)
    ensures forall k :: to <= k < buffer.Length ==> buffer[k] == old(buffer[k])
  {
    for i := 0 to to
      invariant forall k :: 0 <= k < i ==> buffer[k] == old(buffer[k]) * RampGain(kernel, start, end, length, k)
      invariant forall k :: i <= k < buffer.Length ==> buffer[k] == old(buffer[k])
    {
      buffer[i] := buffer[i] * RampGain(kernel, start, end, length, i);
    }
  }

  /** Samples `from..to` get the steady gain. */
  method SettlePart(buffer: array<real>, from: nat, to: nat, gain: real)
    requires from <= to <= buffer.Length
    modifies buffer
    ensures forall k :: from <= k < to ==> buffer[k] == old(buffer[k]) * Steady(gain)
    ensures forall k :: 0 <= k < from || to <= k < buffer.Length ==> buffer[k] == old(buffer[k])
  {
    for i := from to to
      invariant forall k :: from <= k < i ==> buffer[k] == old(buffer[k]) * Steady(gain)
      invariant forall k :: 0 <= k < from || i <= k < buffer.Length ==> buffer[k] == old(buffer[k])
    {
      buffer[i] := buffer[i] * Steady(gain);
    }
  }
}
