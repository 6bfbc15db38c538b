/** Properties of the noise gate over whole runs: gain stays in range, never clicks,
    holds as long as promised, and closes under silence. */
module GateRuns {
  import opened Basics
  import opened Gate

  /** The state after a run of blocks. */
  ghost function Run(s: State, bs: seq<Block>): State {
    if bs == [] then s else Step(Run(s, bs[..|bs| - 1]), bs[|bs| - 1])
  }

  // ----- safety under arbitrary parameter changes

  ghost predicate Safe(s: State) {
    && 0.0 <= s.mult <= 1.0 && 0.0 <= s.rampStart <= 1.0
    && (s.phase == Open ==> s.mult == 1.0)
    && (s.phase == Closed ==> s.mult == 0.0)
  }

  lemma RatioInUnit(a: nat, f: nat)
    requires a <= f
    ensures 0.0 <= Ratio(a, f) <= 1.0
  {
    var u := 1.0 / Max(f, 1) as real;
    assert Max(f, 1) as real * u == 1.0;
    if f > 0 {
      RealProductMonotone(a as real, f as real, u);
    }
  }

  lemma StepSafe(s: State, b: Block)
    requires Safe(s)
    ensures Safe(Step(s, b)) && Step(s, b).rampStart == s.mult && Step(s, b).ramp <= b.n
  {
    var f := b.params.fadeFrames;
    var from := Min(s.fade, f);
    if from + b.n < f { RatioInUnit(from + b.n, f); }
    if b.n < f { RatioInUnit(b.n, f); }
    if from > b.n { RatioInUnit(from - b.n, f); }
  }

  /** Whatever the parameters do between blocks, the multiplier stays in [0, 1], an
      open gate is at unity and a closed one silent, and no ramp outlasts its block. */
  lemma {:induction false} RunSafe(bs: seq<Block>)
    ensures Safe(Run(Initial, bs))
    ensures bs != [] ==> Run(Initial, bs).ramp <= bs[|bs| - 1].n
  {
    if bs != [] {
      RunSafe(bs[..|bs| - 1]);
      StepSafe(Run(Initial, bs[..|bs| - 1]), bs[|bs| - 1]);
    }
  }

  lemma Between(start: real, end: real, length: nat, k: nat)
    requires 0.0 <= start <= 1.0 && 0.0 <= end <= 1.0 && k <= length && length > 0
    ensures 0.0 <= start + k as real * ((end - start) / length as real) <= 1.0
  {
    var t := k as real / length as real;
    QuotientMonotone(k as real, length as real, length as real);
    Portion(k as real, length as real, end - start);
    Mix(start, end, t);
  }

  /** `k` steps of a `length`-th of `d` are a fraction of `d`. */
  lemma Portion(k: real, length: real, d: real)
    requires length > 0.0
    ensures k * (d / length) == k / length * d
  {
  }

  lemma Mix(start: real, end: real, t: real)
    requires 0.0 <= start <= 1.0 && 0.0 <= end <= 1.0 && 0.0 <= t <= 1.0
    ensures 0.0 <= start + t * (end - start) <= 1.0
  {
    Rearranged(start, end, t);
    Portions(start, end, 1.0 - t, t);
  }

  lemma Rearranged(start: real, end: real, t: real)
    ensures start + t * (end - start) == start * (1.0 - t) + end * t
  {
  }

  lemma Portions(x: real, y: real, a: real, b: real)
    requires 0.0 <= x <= 1.0 && 0.0 <= y <= 1.0 && 0.0 <= a && 0.0 <= b
    ensures 0.0 <= x * a + y * b <= a + b
  {
    RealProductMonotone(x, 1.0, a);
    RealProductMonotone(y, 1.0, b);
    SumBounds(x * a, y * b, a, b);
  }

  lemma SumBounds(p: real, q: real, a: real, b: real)
    requires 0.0 <= p <= a && 0.0 <= q <= b
    ensures 0.0 <= p + q <= a + b
  {
  }

  ghost predicate InUnit(g: real) { 0.0 <= g <= 1.0 }

  /** No sample of a block, nor the one just past its end, is ever amplified or inverted,
      not even in a sub-block shorter than the ramp. */
  lemma GainInUnit(kernel: Kernel, s: State, n: nat, k: nat)
    requires Safe(s) && 0 < n && k <= n
    ensures InUnit(GainAt(kernel, s, n, k))
  {
    if s.ramp > 0 && (k < s.ramp || s.ramp >= n) {
      RampGainInUnit(kernel, s.rampStart, s.mult, Min(s.ramp, n), k);
    }
  }

  lemma RampGainInUnit(kernel: Kernel, start: real, end: real, length: nat, k: nat)
    requires 0.0 <= start <= 1.0 && 0.0 <= end <= 1.0 && k <= length && length > 0
    ensures InUnit(RampGain(kernel, start, end, length, k))
  {
    Between(start, end, length, k);
  }

  /** The ramp over a sub-block no longer than the remaining ramp arrives at the multiplier
      one sample after the sub-block, unless a kernel flattens it: up to the gain tolerance
      for a negligible change, or at its start for a negligible slope. */
  lemma SubBlockArrives(kernel: Kernel, s: State, n: nat)
    requires 0 < n <= s.ramp
    ensures var g, d := GainAt(kernel, s, n, n), Abs(s.rampStart - s.mult);
      if d < GAIN_EPSILON then Abs(g - s.mult) < GAIN_EPSILON
      else if kernel == Mono && Abs((s.mult - s.rampStart) / n as real) < STEP_EPSILON then g == Scaled(Mono, s.rampStart)
      else g == s.mult
  {
    Portion(n as real, n as real, s.mult - s.rampStart);
  }

  /** Past that point the mono form does amplify: it keeps extrapolating the ramp. The two
      blocks that get there: one that closes a gate without fade, one that opens it over
      `n` samples. */
  lemma LongBufferOvershoots(n: nat, k: nat)
    requires 0 < n < k && n <= 1_000_000_000
    ensures var close := Block(0.0, 1.0, 1.0, Params(0, 0), 1);
            var open := Block(1.0, 1.0, 1.0, Params(0, n), n);
            GainAt(Mono, Run(Initial, [close, open]), n, k) > 1.0
  {
    var close := Block(0.0, 1.0, 1.0, Params(0, 0), 1);
    var open := Block(1.0, 1.0, 1.0, Params(0, n), n);
    var bs := [close, open];
    assert bs[..1] == [close] && [close][..0] == [];
    assert Run(Initial, []) == Initial;
    assert Run(Initial, [close]) == Step(Initial, close);
    assert Run(Initial, bs) == Step(Step(Initial, close), open);
    var s := Run(Initial, bs);
    assert s.ramp == n && s.rampStart == 0.0 && s.mult == 1.0;
    Slope(n, STEP_EPSILON);
    assert GainAt(Mono, s, n, k) == k as real * (1.0 / n as real);
    assert n as real * (1.0 / n as real) == 1.0;
    var u := 1.0 / n as real;
    assert (k - n) as real * u > 0.0;
    assert k as real * u == n as real * u + (k - n) as real * u;
  }

  lemma Slope(f: nat, epsilon: real)
    requires f >= 1 && 0.0 < epsilon && f as real * epsilon <= 1.0
    ensures 1.0 / f as real >= epsilon
  {
    var u := 1.0 / f as real;
    assert f as real * u == 1.0;
    if u < epsilon {
      RealProductStrict(f as real, u, epsilon);
    }
  }

  /** A unit change over more than a thousand million samples has a negligible slope. */
  lemma FlatSlope(d: real, n: nat)
    requires -1.0 <= d <= 1.0 && n > 1_000_000_000
    ensures Abs(d / n as real) < STEP_EPSILON
  {
    var q := d / n as real;
    assert q * n as real == d;
    if q >= STEP_EPSILON {
      RealProductMonotone(STEP_EPSILON, q, n as real);
    } else if q <= -STEP_EPSILON {
      RealProductMonotone(STEP_EPSILON, -q, n as real);
    }
  }

  lemma LongBlockIsFlat(s: State, n: nat, k: nat)
    requires Safe(s) && s.ramp <= n && n > 1_000_000_000
    ensures InUnit(GainAt(Mono, s, n, k))
  {
    if k <= n {
      GainInUnit(Mono, s, n, k);
    } else if s.ramp == n {
      FlatSlope(s.mult - s.rampStart, n);
    }
  }

  ghost predicate EndsWith(bs: seq<Block>, n: nat) {
    bs != [] && bs[|bs| - 1].n == n
  }

  /** Position `k` of a buffer is safe after every run that ends in a block of `n` samples
      exactly when it is at most one past the block, or the block is so long that every
      ramp over it is flat. */
  lemma OvershootsExactly(n: nat, k: nat)
    requires n > 0
    ensures (forall bs :: EndsWith(bs, n) ==> InUnit(GainAt(Mono, Run(Initial, bs), n, k))) <==> k <= n || n > 1_000_000_000
  {
    if k <= n || n > 1_000_000_000 {
      forall bs | EndsWith(bs, n) ensures InUnit(GainAt(Mono, Run(Initial, bs), n, k)) {
        RunSafe(bs);
        if k <= n {
          GainInUnit(Mono, Run(Initial, bs), n, k);
        } else {
          LongBlockIsFlat(Run(Initial, bs), n, k);
        }
      }
    } else {
      LongBufferOvershoots(n, k);
      var bs := [Block(0.0, 1.0, 1.0, Params(0, 0), 1), Block(1.0, 1.0, 1.0, Params(0, n), n)];
      assert EndsWith(bs, n) && !InUnit(GainAt(Mono, Run(Initial, bs), n, k));
    }
  }

  /** A whole buffer of `len` samples is safe in the mono form exactly when it exceeds the
      declared block by at most one sample, or ramps over the block are flat. */
  lemma BufferInUnitExactly(n: nat, len: nat)
    requires n > 0
    ensures (forall bs, k: nat :: EndsWith(bs, n) && k < len ==> InUnit(GainAt(Mono, Run(Initial, bs), Min(len, n), k))) <==>
            len <= n + 1 || n > 1_000_000_000
  {
    if len <= n + 1 || n > 1_000_000_000 {
      forall bs, k: nat | EndsWith(bs, n) && k < len ensures InUnit(GainAt(Mono, Run(Initial, bs), Min(len, n), k)) {
        if k <= Min(len, n) {
          RunSafe(bs);
          GainInUnit(Mono, Run(Initial, bs), Min(len, n), k);
        } else {
          OvershootsExactly(n, k);
        }
      }
    } else {
      OvershootsExactly(n, n + 1);
      var bs :| EndsWith(bs, n) && !InUnit(GainAt(Mono, Run(Initial, bs), n, n + 1));
      assert EndsWith(bs, n) && n + 1 < len && !InUnit(GainAt(Mono, Run(Initial, bs), Min(len, n), n + 1));
    }
  }

  // ----- the fade position as an integer walk

  ghost predicate FixedFade(bs: seq<Block>, f: nat) {
    forall i :: 0 <= i < |bs| ==> bs[i].params.fadeFrames == f
  }

  /** The fade position: `f` when fully open, 0 when closed. */
  ghost function Level(s: State, f: nat): nat {
    match s.phase
    case Open => f
    case Closed => 0
    case _ => s.fade
  }

  /** Where a block moves the fade: a closed or closing gate answers to the open
      threshold, an opening one to the close threshold. */
  ghost function Direction(s: State, b: Block): int {
    match s.phase
    case Open => 0
    case Closed => if b.value >= b.thresholdOpen then 1 else 0
    case FadingOut => if b.value >= b.thresholdOpen then 1 else -1
    case FadingIn => if b.value < b.thresholdClose then -1 else 1
  }

  /** `k` unit steps from `l` in direction `d`, stopping at the ends of the fade. */
  ghost function Glide(l: nat, d: int, k: nat, f: nat): nat {
    if d > 0 then Min(l + k, f) else if d < 0 then Monus(l, k) else l
  }

  /** With a fixed fade length the multiplier is the fade position over that length. */
  ghost predicate OnRamp(s: State, f: nat) {
    f > 0 && s.fade <= f && s.mult == Ratio(Level(s, f), f)
  }

  lemma FullRatio(f: nat)
    requires f > 0
    ensures Ratio(f, f) == 1.0 && Ratio(0, f) == 0.0
  {
  }

  /** A block moves the fade position by one per sample, and ramps exactly as long
      as the position moves. */
  lemma StepGlides(s: State, b: Block, f: nat)
    requires OnRamp(s, f) && b.params.fadeFrames == f
    ensures OnRamp(Step(s, b), f) && Step(s, b).rampStart == s.mult
    ensures Level(Step(s, b), f) == Glide(Level(s, f), Direction(s, b), b.n, f)
    ensures Step(s, b).ramp == Max(Level(s, f), Level(Step(s, b), f)) - Min(Level(s, f), Level(Step(s, b), f))
  {
    FullRatio(f);
  }

  lemma RatioStep(a: int, d: int, f: nat)
    ensures Ratio(a + d, f) == Ratio(a, f) + Ratio(d, f)
  {
    var u := 1.0 / Max(f, 1) as real;
    assert (a + d) as real * u == a as real * u + d as real * u;
  }

  /** A ramp between two positions, one unit per sample, visits the positions in between. */
  lemma RampVisits(kernel: Kernel, from: nat, to: nat, f: nat, k: nat)
    requires 1 <= f <= 1_000_000 && from != to
    requires k < (if from < to then to - from else from - to)
    ensures var length := if from < to then to - from else from - to;
            RampGain(kernel, Ratio(from, f), Ratio(to, f), length, k) == Ratio(if from < to then from + k else from - k, f)
  {
    var length := if from < to then to - from else from - to;
    var sign := if from < to then 1 else -1;
    RatioStep(from, sign * length, f);
    var u := 1.0 / f as real;
    Slope(f, GAIN_EPSILON);
    assert Ratio(to, f) - Ratio(from, f) == (sign * length) as real * u;
    Spread(length, u);
    UnitStep(sign, length, u);
    assert k as real * (sign as real * u) == (sign * k) as real * u by { Reassociate(k, sign, u); }
    RatioStep(from, sign * k, f);
  }

  lemma Spread(length: nat, u: real)
    requires length >= 1 && u >= 0.0
    ensures length as real * u >= u
  {
  }

  lemma UnitStep(sign: int, length: nat, u: real)
    requires length >= 1 && (sign == 1 || sign == -1)
    ensures (sign * length) as real * u / length as real == sign as real * u
  {
    assert (sign * length) as real * u == sign as real * u * length as real;
  }

  lemma Reassociate(k: nat, sign: int, u: real)
    requires sign == 1 || sign == -1
    ensures k as real * (sign as real * u) == (sign * k) as real * u
  {
  }

  /** Sample `k` of a block receives the fade position reached after `k` unit steps. */
  lemma GainFollowsLevel(kernel: Kernel, s: State, b: Block, f: nat, k: nat)
    requires OnRamp(s, f) && f <= 1_000_000 && b.params.fadeFrames == f && k < b.n
    ensures GainAt(kernel, Step(s, b), b.n, k) == Ratio(Glide(Level(s, f), Direction(s, b), k, f), f)
  {
    var t := Step(s, b);
    StepGlides(s, b, f);
    FullRatio(f);
    var from, to := Level(s, f), Level(t, f);
    if t.ramp > 0 && (k < t.ramp || t.ramp >= b.n) {
      RampVisits(kernel, from, to, f, k);
    } else {
      assert to == 0 || to == f;
    }
  }

  // ----- no clicks over a whole run

  ghost function BlockGains(kernel: Kernel, t: State, n: nat): (gs: seq<real>)
    ensures |gs| == n && forall k :: 0 <= k < n ==> gs[k] == GainAt(kernel, t, n, k)
  {
    seq(n, (k: int) requires 0 <= k < n => GainAt(kernel, t, n, k))
  }

  /** The gain of every sample of a run, block after block. */
  ghost function Gains(kernel: Kernel, s: State, bs: seq<Block>): (gs: seq<real>)
    decreases |bs|
  {
    if bs == [] then [] else
      BlockGains(kernel, Step(s, bs[0]), bs[0].n) + Gains(kernel, Step(s, bs[0]), bs[1..])
  }

  ghost function BlockLevels(l: nat, d: int, n: nat, f: nat): (ls: seq<nat>)
    ensures |ls| == n && forall k :: 0 <= k < n ==> ls[k] == Glide(l, d, k, f)
  {
    seq(n, (k: int) requires 0 <= k < n => Glide(l, d, k, f))
  }

  ghost function Levels(s: State, bs: seq<Block>, f: nat): (ls: seq<nat>)
    decreases |bs|
  {
    if bs == [] then [] else
      BlockLevels(Level(s, f), Direction(s, bs[0]), bs[0].n, f) + Levels(Step(s, bs[0]), bs[1..], f)
  }

  /** Neighbouring positions differ by at most one. */
  ghost predicate Walks(ls: seq<nat>) {
    forall i :: 0 < i < |ls| ==> ls[i] <= ls[i - 1] + 1 && ls[i - 1] <= ls[i] + 1
  }

  lemma {:induction false} LevelsWalk(s: State, bs: seq<Block>, f: nat)
    requires OnRamp(s, f) && FixedFade(bs, f)
    ensures Walks(Levels(s, bs, f))
    ensures Levels(s, bs, f) != [] ==> Levels(s, bs, f)[0] == Level(s, f)
    decreases |bs|
  {
    if bs != [] {
      var b, t := bs[0], Step(s, bs[0]);
      StepGlides(s, b, f);
      LevelsWalk(t, bs[1..], f);
      JoinWalks(Level(s, f), Direction(s, b), b.n, f, Levels(t, bs[1..], f));
    }
  }

  lemma JoinWalks(l: nat, d: int, n: nat, f: nat, rest: seq<nat>)
    requires l <= f && Walks(rest)
    requires rest != [] ==> rest[0] == Glide(l, d, n, f)
    ensures Walks(BlockLevels(l, d, n, f) + rest)
    ensures BlockLevels(l, d, n, f) + rest != [] ==> (BlockLevels(l, d, n, f) + rest)[0] == l
  {
    var ls := BlockLevels(l, d, n, f);
    forall i | 0 < i < |ls + rest|
      ensures (ls + rest)[i] <= (ls + rest)[i - 1] + 1 && (ls + rest)[i - 1] <= (ls + rest)[i] + 1
    {
      if i > n { assert (ls + rest)[i] == rest[i - n] && (ls + rest)[i - 1] == rest[i - n - 1]; }
    }
  }

  lemma {:induction false} GainsFollowLevels(kernel: Kernel, s: State, bs: seq<Block>, f: nat)
    requires OnRamp(s, f) && f <= 1_000_000 && FixedFade(bs, f)
    ensures |Gains(kernel, s, bs)| == |Levels(s, bs, f)|
    ensures forall i :: 0 <= i < |Levels(s, bs, f)| ==> Gains(kernel, s, bs)[i] == Ratio(Levels(s, bs, f)[i], f)
    decreases |bs|
  {
    if bs != [] {
      var b, t := bs[0], Step(s, bs[0]);
      StepGlides(s, b, f);
      GainsFollowLevels(kernel, t, bs[1..], f);
      forall k | 0 <= k < b.n
        ensures GainAt(kernel, t, b.n, k) == Ratio(Glide(Level(s, f), Direction(s, b), k, f), f)
      {
        GainFollowsLevel(kernel, s, b, f, k);
      }
    }
  }

  /** Consecutive samples differ by nothing or by exactly one fade step. */
  ghost predicate ClickFree(gs: seq<real>, f: nat)
    requires f > 0
  {
    forall i :: 0 < i < |gs| ==> gs[i] == gs[i - 1] || Abs(gs[i] - gs[i - 1]) == 1.0 / f as real
  }

  /** Across block borders, mid-fade reversals and re-triggers. */
  lemma RunIsClickFree(kernel: Kernel, bs: seq<Block>, f: nat)
    requires 1 <= f <= 1_000_000 && FixedFade(bs, f)
    ensures ClickFree(Gains(kernel, Initial, bs), f)
  {
    FullRatio(f);
    LevelsWalk(Initial, bs, f);
    GainsFollowLevels(kernel, Initial, bs, f);
    var gs, ls := Gains(kernel, Initial, bs), Levels(Initial, bs, f);
    forall i | 0 < i < |gs|
      ensures gs[i] == gs[i - 1] || Abs(gs[i] - gs[i - 1]) == 1.0 / f as real
    {
      NeighbourRatios(ls[i - 1], ls[i], f);
    }
  }

  lemma NeighbourRatios(a: int, b: int, f: nat)
    requires f > 0 && -1 <= b - a <= 1
    ensures Ratio(a, f) == Ratio(b, f) || Abs(Ratio(b, f) - Ratio(a, f)) == 1.0 / f as real
  {
    RatioStep(a, b - a, f);
    UnitRatio(f);
  }

  lemma UnitRatio(f: nat)
    requires f > 0
    ensures Ratio(1, f) == 1.0 / f as real && Ratio(-1, f) == -(1.0 / f as real) && Ratio(0, f) == 0.0
    ensures 1.0 / f as real > 0.0
  {
  }

  // ----- and the bound on the fade length is sharp

  ghost function Silence(f: nat, n: nat): Block {
    Block(0.0, 1.0, 1.0, Params(0, f), n)
  }

  /** A ramp block of just over a millionth of the scale, then a one-sample block
      whose change is too small to count as a ramp. */
  ghost function ClickRun(f: nat): seq<Block> {
    [Silence(f, 1), Silence(f, (f + 999_999) / 1_000_000), Silence(f, 1)]
  }

  lemma LongFadeClicks(kernel: Kernel, f: nat)
    requires f > 1_000_000
    ensures FixedFade(ClickRun(f), f) && !ClickFree(Gains(kernel, Initial, ClickRun(f)), f)
  {
    var bs := ClickRun(f);
    var n := (f + 999_999) / 1_000_000;
    var s1 := Step(Initial, bs[0]);
    var s2 := Step(s1, bs[1]);
    var s3 := Step(s2, bs[2]);
    FullRatio(f);
    assert s2 == State(FadingOut, 1, f - n, Ratio(f - n, f), 1.0, n);
    assert s3.mult == Ratio(f - n - 1, f) && s3.rampStart == s2.mult && s3.ramp == 1;
    var g2, g3 := BlockGains(kernel, s2, n), BlockGains(kernel, s3, 1);
    var gs := Gains(kernel, Initial, bs);
    assert gs == BlockGains(kernel, s1, 1) + g2 + g3 by {
      assert bs[1..] == [bs[1], bs[2]] && [bs[1], bs[2]][1..] == [bs[2]] && [bs[2]][1..] == [];
      assert Gains(kernel, s2, [bs[2]]) == g3 + Gains(kernel, s3, []);
      assert Gains(kernel, s1, [bs[1], bs[2]]) == g2 + Gains(kernel, s2, [bs[2]]);
    }
    assert gs[n] == g2[n - 1] && gs[n + 1] == g3[0];
    ClickJump(kernel, f, n);
  }

  /** The jump from the last ramped sample to the flattened one. */
  lemma ClickJump(kernel: Kernel, f: nat, n: nat)
    requires f > 1_000_000 && n == (f + 999_999) / 1_000_000
    ensures var a, b := RampGain(kernel, 1.0, Ratio(f - n, f), n, n - 1), RampGain(kernel, Ratio(f - n, f), Ratio(f - n - 1, f), 1, 0);
            a != b && Abs(b - a) != 1.0 / f as real
  {
    var u := 1.0 / f as real;
    var drop := n as real * u;
    TinySteps(f, n, u, drop);
    JumpBetween(kernel, n, u, drop, Ratio(f - n, f), Ratio(f - n - 1, f));
  }

  lemma JumpBetween(kernel: Kernel, n: nat, u: real, drop: real, mid: real, end: real)
    requires n >= 1 && 0.0 < u < GAIN_EPSILON <= drop && drop == n as real * u && drop >= 2.0 * u
    requires mid == 1.0 - drop && end == 1.0 - drop - u
    ensures var a, b := RampGain(kernel, 1.0, mid, n, n - 1), RampGain(kernel, mid, end, 1, 0);
            a != b && Abs(b - a) != u
  {
    LastRamped(kernel, n, u, drop);
    Flattened(kernel, drop, u);
    Jump(RampGain(kernel, 1.0, mid, n, n - 1), RampGain(kernel, mid, end, 1, 0), drop, u);
  }

  lemma Jump(a: real, b: real, drop: real, u: real)
    requires (a == 1.0 || a == 1.0 - drop + u) && b == 1.0 - drop - u && drop >= 2.0 * u > 0.0
    ensures a != b && Abs(b - a) != u
  {
  }

  /** The last sample of a ramp that drops by `drop` in steps of `u`; the mono kernel
      may flatten it to its start. */
  lemma LastRamped(kernel: Kernel, n: nat, u: real, drop: real)
    requires n >= 1 && u > 0.0 && drop == n as real * u && drop >= GAIN_EPSILON
    ensures RampGain(kernel, 1.0, 1.0 - drop, n, n - 1) == 1.0 || RampGain(kernel, 1.0, 1.0 - drop, n, n - 1) == 1.0 - drop + u
  {
    Downward(n, u);
  }

  lemma Downward(n: nat, u: real)
    requires n >= 1
    ensures (1.0 - n as real * u - 1.0) / n as real == -u
    ensures 1.0 + (n - 1) as real * -u == 1.0 - n as real * u + u
  {
    UnitStep(-1, n, u);
    Reassociate(n, -1, u);
    assert (n - 1) as real * u == n as real * u - u;
  }

  /** A change too small to be a ramp is applied at once. */
  lemma Flattened(kernel: Kernel, drop: real, u: real)
    requires drop >= GAIN_EPSILON && 0.0 < u < GAIN_EPSILON
    ensures RampGain(kernel, 1.0 - drop, 1.0 - drop - u, 1, 0) == 1.0 - drop - u
  {
  }

  lemma TinySteps(f: nat, n: nat, u: real, drop: real)
    requires f > 1_000_000 && n == (f + 999_999) / 1_000_000
    requires u == 1.0 / f as real && drop == n as real * u
    ensures n >= 1 && 0.0 < u < GAIN_EPSILON <= drop && drop >= 2.0 * u
    ensures Ratio(f - n, f) == 1.0 - drop && Ratio(f - n - 1, f) == 1.0 - drop - u
  {
    FullRatio(f);
    UnitRatio(f);
    RatioStep(f, -(n as int), f);
    RatioStep(f - n, -1, f);
    Reassociate(n, -1, u);
    assert f as real * u == 1.0;
    if u >= GAIN_EPSILON { RealProductMonotone(1_000_000.0, f as real, u); }
    RealProductMonotone(f as real, 1_000_000.0 * n as real, u);
    RealProductMonotone(2.0, n as real, u);
    assert 1_000_000.0 * n as real * u == 1_000_000.0 * (n as real * u);
  }

  /** A gate with fade length `f` never clicks, on any run, exactly when `f` is at
      most a million. */
  lemma ClickFreeExactly(kernel: Kernel, f: nat)
    requires f >= 1
    ensures (forall bs :: FixedFade(bs, f) ==> ClickFree(Gains(kernel, Initial, bs), f)) <==> f <= 1_000_000
  {
    if f <= 1_000_000 {
      forall bs | FixedFade(bs, f) ensures ClickFree(Gains(kernel, Initial, bs), f) {
        RunIsClickFree(kernel, bs, f);
      }
    } else {
      LongFadeClicks(kernel, f);
    }
  }

  // ----- hold: the gate leaves Open only after enough quiet

  /** Samples in the unbroken stretch of quiet blocks, met while open, that ends the run. */
  ghost function TrailingQuiet(bs: seq<Block>): nat {
    if bs == [] then 0 else
      var init, b := bs[..|bs| - 1], bs[|bs| - 1];
      if Run(Initial, init).phase == Open && b.value < b.thresholdClose then TrailingQuiet(init) + b.n else 0
  }

  lemma {:induction false} HoldCountsQuiet(bs: seq<Block>)
    ensures Run(Initial, bs).phase == Open ==> Run(Initial, bs).hold == TrailingQuiet(bs)
  {
    if bs != [] {
      HoldCountsQuiet(bs[..|bs| - 1]);
    }
  }

  /** An open gate starts to close on a block exactly when that block completes an
      unbroken stretch of at least `holdFrames` quiet samples. */
  lemma LeavesOpenExactly(bs: seq<Block>, b: Block)
    requires Run(Initial, bs).phase == Open
    ensures Run(Initial, bs + [b]).phase != Open <==>
            b.value < b.thresholdClose && TrailingQuiet(bs + [b]) >= b.params.holdFrames
  {
    HoldCountsQuiet(bs);
    assert (bs + [b])[..|bs|] == bs;
  }

  // ----- which level opens, re-triggers and reverses the gate

  /** A closed gate starts to open, and a closing one turns round, exactly at the open
      threshold; an opening one turns round exactly below the close threshold; an open one
      stays open, and forgets any hold, at the close threshold. */
  lemma ThresholdsExactly(s: State, b: Block)
    ensures s.phase == Closed ==> (Step(s, b).phase != Closed <==> b.value >= b.thresholdOpen)
    ensures s.phase == FadingOut ==> (Step(s, b).phase in {FadingIn, Open} <==> b.value >= b.thresholdOpen)
    ensures s.phase == FadingIn ==> (Step(s, b).phase in {FadingOut, Closed} <==> b.value < b.thresholdClose)
    ensures s.phase == Open && b.value >= b.thresholdClose ==> Step(s, b).phase == Open && Step(s, b).hold == 0
  {
  }

  /** Between the thresholds a gate carries on with what it was doing. */
  lemma BetweenThresholds(s: State, b: Block)
    requires b.thresholdClose <= b.value < b.thresholdOpen
    ensures s.phase in {Open, Closed} ==> Step(s, b).phase == s.phase
    ensures s.phase == FadingIn ==> Step(s, b).phase in {FadingIn, Open}
    ensures s.phase == FadingOut ==> Step(s, b).phase in {FadingOut, Closed}
  {
  }

  /** Without a fade, every change of direction is complete within its block, and no ramp
      is laid. */
  lemma InstantFade(s: State, b: Block)
    requires b.params.fadeFrames == 0
    ensures Direction(s, b) == 1 ==> Step(s, b).phase == Open && Step(s, b).mult == 1.0 && Step(s, b).ramp == 0
    ensures Direction(s, b) == -1 ==> Step(s, b).phase == Closed && Step(s, b).mult == 0.0 && Step(s, b).ramp == 0
    ensures s.phase == Open && Step(s, b).phase != Open ==>
      Step(s, b).phase == Closed && Step(s, b).mult == 0.0 && Step(s, b).ramp == 0
  {
  }

  // ----- liveness: sound opens the gate

  ghost predicate Loud(b: Block, p: Params) {
    b.params == p && b.value >= b.thresholdOpen && b.value >= b.thresholdClose
  }

  ghost function Samples(bs: seq<Block>): nat {
    if bs == [] then 0 else Samples(bs[..|bs| - 1]) + bs[|bs| - 1].n
  }

  /** From any state, loud blocks that total the fade length leave the gate open. */
  lemma {:induction false} LoudOpens(s: State, bs: seq<Block>, p: Params)
    requires bs != [] && forall i :: 0 <= i < |bs| ==> Loud(bs[i], p)
    ensures var t := Run(s, bs); t.phase == Open || (t.phase == FadingIn && Samples(bs) <= t.fade < p.fadeFrames)
    ensures Samples(bs) >= p.fadeFrames ==> Run(s, bs).phase == Open
  {
    var init := bs[..|bs| - 1];
    if init == [] {
      assert Run(s, init) == s && Samples(init) == 0;
    } else {
      LoudOpens(s, init, p);
    }
  }

  /** From Closed, no fewer do. */
  lemma {:induction false} LoudOpensExactly(s: State, bs: seq<Block>, p: Params)
    requires s.phase == Closed && bs != [] && forall i :: 0 <= i < |bs| ==> Loud(bs[i], p)
    ensures if Samples(bs) >= p.fadeFrames then Run(s, bs).phase == Open
            else Run(s, bs).phase == FadingIn && Run(s, bs).fade == Samples(bs)
  {
    var init := bs[..|bs| - 1];
    if init == [] {
      assert Run(s, init) == s && Samples(init) == 0;
    } else {
      LoudOpensExactly(s, init, p);
    }
  }

  // ----- liveness: silence closes the gate

  ghost predicate Silent(b: Block, p: Params) {
    b.params == p && b.value < b.thresholdClose && b.value < b.thresholdOpen && b.n > 0
  }

  /** Blocks of silence that certainly suffice to close the gate. */
  ghost function Distance(s: State, p: Params): nat {
    match s.phase
    case Closed => 0
    case Open => 2 + p.fadeFrames + Monus(p.holdFrames, s.hold)
    case _ => 1 + Min(s.fade, p.fadeFrames)
  }

  lemma SilenceProgresses(s: State, b: Block, p: Params)
    requires Silent(b, p)
    ensures s.phase == Closed ==> Step(s, b).phase == Closed
    ensures s.phase != Closed ==> Distance(Step(s, b), p) < Distance(s, p)
  {
  }

  /** From any state at all, that many silent blocks leave the gate closed, and it stays closed. */
  lemma {:induction false} SilenceCloses(s: State, bs: seq<Block>, p: Params)
    requires forall i :: 0 <= i < |bs| ==> Silent(bs[i], p)
    ensures Run(s, bs).phase == Closed || Distance(Run(s, bs), p) + |bs| <= Distance(s, p)
    ensures |bs| >= Distance(s, p) ==> Run(s, bs).phase == Closed
  {
    if bs != [] {
      SilenceCloses(s, bs[..|bs| - 1], p);
      SilenceProgresses(Run(s, bs[..|bs| - 1]), bs[|bs| - 1], p);
    }
  }
}
