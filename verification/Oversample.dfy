/** The oversampling engine: zero, one or two cascaded half-band stages behind a
    fail-closed boundary that clamps and aligns whatever the host hands over. */
module Oversample {
  import opened Basics
  import opened Signals
  import opened HalfBand
  import opened Stage

  datatype Factor = Off | X2 | X4 {
    function Multiplier(): nat {
      match this
      case Off => 1
      case X2 => 2
      case X4 => 4
    }

    /** `n` native samples at the oversampled rate. */
    function Times(n: nat): nat {
      match this
      case Off => n
      case X2 => 2 * n
      case X4 => 4 * n
    }

    /** The whole native samples in `n` oversampled ones. */
    function Over(n: nat): nat {
      match this
      case Off => n
      case X2 => n / 2
      case X4 => n / 4
    }

    predicate Whole(n: nat) {
      n == Times(Over(n))
    }
  }

  /** Status word shared with the host; only the contract-violation bit matters here. */
  class RtStatusFlags {
    var hostContractViolation: bool

    constructor ()
      ensures !hostContractViolation
    {
      hostContractViolation := false;
    }
  }

  // ----- the specification: what a whole stream becomes

  ghost function UpStream(factor: Factor, f: Filter, xs: seq<real>): (ys: seq<real>)
    requires f.Valid()
    ensures |ys| == factor.Times(|xs|)
  {
    match factor
    case Off => xs
    case X2 => Upsampled(f, xs)
    case X4 => Upsampled(f, Upsampled(f, xs))
  }

  ghost function DownStream(factor: Factor, f: Filter, ys: seq<real>): (xs: seq<real>)
    requires f.Valid()
    ensures factor.Whole(|ys|) ==> |xs| == factor.Over(|ys|)
  {
    match factor
    case Off => ys
    case X2 => Decimated(f, ys)
    case X4 => Decimated(f, Decimated(f, ys))
  }

  /** What a call fed `block` adds to the output of an engine that has already seen `past`. */
  ghost function UpBlock(factor: Factor, f: Filter, past: seq<real>, block: seq<real>): seq<real>
    requires f.Valid()
  {
    UpStream(factor, f, past + block)[factor.Times(|past|)..]
  }

  ghost function DownBlock(factor: Factor, f: Filter, past: seq<real>, block: seq<real>): seq<real>
    requires f.Valid() && factor.Whole(|past|) && factor.Whole(|block|)
  {
    DownLength(factor, |past|, |block|);
    DownStream(factor, f, past + block)[factor.Over(|past|)..]
  }

  lemma DownLength(factor: Factor, a: nat, b: nat)
    requires factor.Whole(a) && factor.Whole(b)
    ensures factor.Whole(a + b)
    ensures factor.Over(a + b) == factor.Over(a) + factor.Over(b)
  {
  }

  /** `Times` and `Over` are multiplication and floor division by the factor, and
      aligning down is the largest whole multiple: what `Downsample` drops is only
      what does not fit or does not complete a native sample. */
  lemma LargestWhole(factor: Factor, n: nat, m: nat)
    requires factor.Whole(m) && m <= n
    ensures factor.Times(n) == factor.Multiplier() * n && factor.Over(n) == n / factor.Multiplier()
    ensures factor.Whole(n) <==> n % factor.Multiplier() == 0
    ensures m <= factor.Times(factor.Over(n)) <= n
  {
  }

  lemma AlignedDown(factor: Factor, n: nat)
    ensures factor.Times(factor.Over(n)) <= n && factor.Whole(factor.Times(factor.Over(n)))
  {
  }

  // ----- causality of the cascades

  lemma UpStreamPrefix(factor: Factor, f: Filter, xs: seq<real>, more: seq<real>)
    requires f.Valid()
    ensures UpStream(factor, f, xs) == UpStream(factor, f, xs + more)[..factor.Times(|xs|)]
  {
    if factor != Off {
      UpsampledPrefix(f, xs, more);
      var all, part := Upsampled(f, xs + more), Upsampled(f, xs);
      if factor == X4 {
        assert all == part + all[2 * |xs|..];
        UpsampledPrefix(f, part, all[2 * |xs|..]);
      }
    }
  }

  lemma DownStreamPrefix(factor: Factor, f: Filter, ys: seq<real>, more: seq<real>)
    requires f.Valid() && factor.Whole(|ys|) && factor.Whole(|more|)
    ensures |DownStream(factor, f, ys + more)| == factor.Over(|ys|) + factor.Over(|more|)
    ensures DownStream(factor, f, ys) == DownStream(factor, f, ys + more)[..factor.Over(|ys|)]
  {
    DownLength(factor, |ys|, |more|);
    if factor != Off {
      DecimatedPrefix(f, ys, more);
      var all, part := Decimated(f, ys + more), Decimated(f, ys);
      if factor == X4 {
        assert all == part + all[|part|..];
        DecimatedPrefix(f, part, all[|part|..]);
      }
    }
  }

  // ----- block-partition invariance

  ghost function Flatten(blocks: seq<seq<real>>): (xs: seq<real>) {
    if blocks == [] then [] else blocks[0] + Flatten(blocks[1..])
  }

  /** The outputs of one call per block, concatenated. */
  ghost function UpBlocks(factor: Factor, f: Filter, past: seq<real>, blocks: seq<seq<real>>): seq<real>
    requires f.Valid()
    decreases |blocks|
  {
    if blocks == [] then [] else
      UpBlock(factor, f, past, blocks[0]) + UpBlocks(factor, f, past + blocks[0], blocks[1..])
  }

  ghost function DownBlocks(factor: Factor, f: Filter, past: seq<real>, blocks: seq<seq<real>>): seq<real>
    requires f.Valid() && factor.Whole(|past|)
    requires forall b :: b in blocks ==> factor.Whole(|b|)
    decreases |blocks|
  {
    if blocks == [] then [] else
      DownLength(factor, |past|, |blocks[0]|);
      DownBlock(factor, f, past, blocks[0]) + DownBlocks(factor, f, past + blocks[0], blocks[1..])
  }

  /** However a stream is cut into calls, the concatenated outputs are those of one call. */
  lemma {:induction false} UpPartition(factor: Factor, f: Filter, past: seq<real>, blocks: seq<seq<real>>)
    requires f.Valid()
    ensures UpBlocks(factor, f, past, blocks) == UpBlock(factor, f, past, Flatten(blocks))
    decreases |blocks|
  {
    if blocks == [] {
      assert past + [] == past;
    } else {
      var next, rest := past + blocks[0], Flatten(blocks[1..]);
      UpPartition(factor, f, next, blocks[1..]);
      assert past + Flatten(blocks) == next + rest;
      UpStreamPrefix(factor, f, next, rest);
      Rejoin(UpStream(factor, f, next + rest), factor.Times(|past|), factor.Times(|next|));
    }
  }

  lemma {:induction false} DownPartition(factor: Factor, f: Filter, past: seq<real>, blocks: seq<seq<real>>)
    requires f.Valid() && factor.Whole(|past|)
    requires forall b :: b in blocks ==> factor.Whole(|b|)
    ensures factor.Whole(|Flatten(blocks)|)
    ensures DownBlocks(factor, f, past, blocks) == DownBlock(factor, f, past, Flatten(blocks))
    decreases |blocks|
  {
    if blocks == [] {
      assert past + [] == past;
    } else {
      DownLength(factor, |past|, |blocks[0]|);
      DownPartition(factor, f, past + blocks[0], blocks[1..]);
      DownTwo(factor, f, past, blocks[0], Flatten(blocks[1..]));
    }
  }

  /** Two calls in a row emit what one call on the joined block would. */
  lemma DownTwo(factor: Factor, f: Filter, past: seq<real>, a: seq<real>, b: seq<real>)
    requires f.Valid() && factor.Whole(|past|)
    requires factor.Whole(|a|) && factor.Whole(|b|)
    ensures factor.Whole(|a + b|) && factor.Whole(|past + a|)
    ensures DownBlock(factor, f, past, a + b) == DownBlock(factor, f, past, a) + DownBlock(factor, f, past + a, b)
  {
    DownLength(factor, |a|, |b|);
    DownLength(factor, |past|, |a|);
    DownStreamPrefix(factor, f, past + a, b);
    assert past + (a + b) == past + a + b;
    Rejoin(DownStream(factor, f, past + a + b), factor.Over(|past|), factor.Over(|past + a|));
  }

  lemma Rejoin(s: seq<real>, a: nat, b: nat)
    requires a <= b <= |s|
    ensures s[a..] == s[..b][a..] + s[b..]
  {
  }

  // ----- latency

  /** Group delay of an up/down round trip, in native samples. */
  function LatencySamples(factor: Factor): nat {
    match factor
    case Off => 0
    case X2 => HB_DELAY
    case X4 => HB_DELAY + HB_DELAY / 2
  }

  /** The round trip as an operator on signals over all of time. */
  ghost function RoundTrip(factor: Factor, up: seq<real>, down: seq<real>, x: Signal): Signal
    decreases factor == X4
  {
    match factor
    case Off => x
    case X2 => Decimate(Fir(down, Fir(up, Stuff(x))))
    case X4 => Decimate(Fir(down, RoundTrip(X2, up, down, Fir(up, Stuff(x)))))
  }

  /** Upsampling a reflected signal: the axis moves by half the kernel at the doubled rate. */
  lemma UpReflect(h: seq<real>, x: Signal, y: Signal, c: int)
    requires Palindromic(h) && |h| == HB_TAPS && Same(y, Reflect(x, c))
    ensures Same(Fir(h, Stuff(y)), Reflect(Fir(h, Stuff(x)), 2 * c + 2 * HB_DELAY))
  {
    StuffReflect(x, c);
    assert Same(Stuff(y), Stuff(Reflect(x, c)));
    FirSame(h, Stuff(y), Reflect(Stuff(x), 2 * c));
    FirReflect(h, Stuff(x), 2 * c);
  }

  /** Decimating a reflected signal: the axis moves by half the kernel, then halves. */
  lemma DownReflect(h: seq<real>, x: Signal, y: Signal, c: int)
    requires Palindromic(h) && |h| == HB_TAPS && Same(y, Reflect(x, 2 * c))
    ensures Same(Decimate(Fir(h, y)), Reflect(Decimate(Fir(h, x)), c + HB_DELAY))
  {
    FirSame(h, y, Reflect(x, 2 * c));
    FirReflect(h, x, 2 * c);
    DecimateReflect(Fir(h, x), c + HB_DELAY);
    assert Same(Decimate(Fir(h, y)), Decimate(Reflect(Fir(h, x), 2 * (c + HB_DELAY))));
  }

  lemma LinearPhaseX2(up: seq<real>, down: seq<real>, x: Signal, y: Signal, c: int)
    requires Palindromic(up) && Palindromic(down) && |up| == |down| == HB_TAPS && Same(y, Reflect(x, c))
    ensures Same(RoundTrip(X2, up, down, y), Reflect(RoundTrip(X2, up, down, x), c + 2 * HB_DELAY))
  {
    UpReflect(up, x, y, c);
    DownReflect(down, Fir(up, Stuff(x)), Fir(up, Stuff(y)), c + HB_DELAY);
  }

  lemma LinearPhaseX4(up: seq<real>, down: seq<real>, x: Signal, y: Signal, c: int)
    requires Palindromic(up) && Palindromic(down) && |up| == |down| == HB_TAPS && Same(y, Reflect(x, c))
    ensures Same(RoundTrip(X4, up, down, y), Reflect(RoundTrip(X4, up, down, x), c + 3 * HB_DELAY))
  {
    var x1, y1 := Fir(up, Stuff(x)), Fir(up, Stuff(y));
    UpReflect(up, x, y, c);
    LinearPhaseX2(up, down, x1, y1, 2 * c + 2 * HB_DELAY);
    DownReflect(down, RoundTrip(X2, up, down, x1), RoundTrip(X2, up, down, y1), c + 2 * HB_DELAY);
  }

  /** Reflecting the input of the round trip about any axis reflects its output
      about an axis `LatencySamples` later: the delay is the same for every
      signal, and it is the figure the engine reports. */
  lemma RoundTripIsLinearPhase(factor: Factor, up: seq<real>, down: seq<real>, x: Signal, y: Signal, c: int)
    requires Palindromic(up) && Palindromic(down) && |up| == |down| == HB_TAPS
    requires Same(y, Reflect(x, c))
    ensures Same(RoundTrip(factor, up, down, y),
                 Reflect(RoundTrip(factor, up, down, x), c + 2 * LatencySamples(factor)))
  {
    match factor
    case Off =>
    case X2 => LinearPhaseX2(up, down, x, y, c);
    case X4 => LinearPhaseX4(up, down, x, y, c);
  }

  // ----- the engine's streams are the round-trip operator, sample for sample

  lemma UpAgree(f: Filter, xs: seq<real>, x: Signal)
    requires f.Valid() && AgreeBefore(Past(xs), x, |xs|)
    ensures AgreeBefore(Past(Upsampled(f, xs)), Fir(f.Kernel(), Stuff(x)), 2 * |xs|)
  {
    var s := Stuff(Past(xs));
    assert AgreeBefore(s, Stuff(x), 2 * |xs|);
    FirAgreeBefore(f.Kernel(), s, Stuff(x), 2 * |xs|);
    assert SilentBeforeZero(s);
    FirSilent(f.Kernel(), s);
  }

  lemma DownAgree(f: Filter, ys: seq<real>, y: Signal)
    requires f.Valid() && |ys| % 2 == 0 && AgreeBefore(Past(ys), y, |ys|)
    ensures AgreeBefore(Past(Decimated(f, ys)), Decimate(Fir(f.Kernel(), y)), |ys| / 2)
  {
    FirAgreeBefore(f.Kernel(), Past(ys), y, |ys|);
    FirSilent(f.Kernel(), Past(ys));
  }

  ghost predicate Filters(up: Filter, down: Filter) {
    up.Valid() && down.Valid()
  }

  lemma RoundTripX2(up: Filter, down: Filter, xs: seq<real>, x: Signal)
    requires Filters(up, down) && AgreeBefore(Past(xs), x, |xs|)
    ensures AgreeBefore(Past(Decimated(down, Upsampled(up, xs))), RoundTrip(X2, up.Kernel(), down.Kernel(), x), |xs|)
  {
    UpAgree(up, xs, x);
    DownAgree(down, Upsampled(up, xs), Fir(up.Kernel(), Stuff(x)));
  }

  lemma RoundTripX4(up: Filter, down: Filter, xs: seq<real>, x: Signal)
    requires Filters(up, down) && AgreeBefore(Past(xs), x, |xs|)
    ensures AgreeBefore(Past(Decimated(down, Decimated(down, Upsampled(up, Upsampled(up, xs))))),
                        RoundTrip(X4, up.Kernel(), down.Kernel(), x), |xs|)
  {
    var us, x1 := Upsampled(up, xs), Fir(up.Kernel(), Stuff(x));
    UpAgree(up, xs, x);
    RoundTripX2(up, down, us, x1);
    DownAgree(down, Decimated(down, Upsampled(up, us)), RoundTrip(X2, up.Kernel(), down.Kernel(), x1));
  }

  /** Upsampling a stream and downsampling the result, starting from rest, yields
      the round-trip operator applied to that stream. */
  lemma StreamRoundTrip(factor: Factor, up: Filter, down: Filter, xs: seq<real>)
    requires Filters(up, down)
    ensures |DownStream(factor, down, UpStream(factor, up, xs))| == |xs|
    ensures AgreeBefore(Past(DownStream(factor, down, UpStream(factor, up, xs))),
                        RoundTrip(factor, up.Kernel(), down.Kernel(), Past(xs)), |xs|)
  {
    match factor
    case Off =>
    case X2 => RoundTripX2(up, down, xs, Past(xs));
    case X4 => RoundTripX4(up, down, xs, Past(xs));
  }

  ghost function Padded(pulse: seq<real>, zeros: nat): (xs: seq<real>)
    ensures |xs| == |pulse| + zeros
  {
    pulse + seq(zeros, (_: int) => 0.0)
  }

  lemma PaddedPulse(pulse: seq<real>, zeros: nat)
    requires Palindromic(pulse)
    ensures Same(Past(Padded(pulse, zeros)), Reflect(Past(Padded(pulse, zeros)), |pulse| - 1))
  {
    var x := Past(Padded(pulse, zeros));
    forall k: int ensures x(k) == Reflect(x, |pulse| - 1)(k) {
      if 0 <= k < |pulse| { assert pulse[k] == pulse[|pulse| - 1 - k]; }
    }
  }

  lemma SymmetricBlock(ys: seq<real>, y: Signal)
    requires AgreeBefore(Past(ys), y, |ys|) && Same(y, Reflect(y, |ys| - 1))
    ensures Palindromic(ys)
  {
    forall n | 0 <= n < |ys| ensures ys[n] == ys[|ys| - 1 - n] {
      var m := |ys| - 1 - n;
      assert Past(ys)(n) == y(n) && Past(ys)(m) == y(m);
      assert y(n) == Reflect(y, |ys| - 1)(n);
    }
  }

  lemma SymmetricRoundTrip(factor: Factor, up: Filter, down: Filter, xs: seq<real>, axis: int)
    requires Filters(up, down) && Palindromic(up.Kernel()) && Palindromic(down.Kernel())
    requires Same(Past(xs), Reflect(Past(xs), axis)) && |xs| - 1 == axis + 2 * LatencySamples(factor)
    ensures Palindromic(DownStream(factor, down, UpStream(factor, up, xs)))
  {
    RoundTripIsLinearPhase(factor, up.Kernel(), down.Kernel(), Past(xs), Past(xs), axis);
    StreamRoundTrip(factor, up, down, xs);
    SymmetricStream(
      DownStream(factor, down, UpStream(factor, up, xs)), RoundTrip(factor, up.Kernel(), down.Kernel(), Past(xs)),
      |xs|, axis + 2 * LatencySamples(factor));
  }

  /** The symmetry of a signal, seen through a block of it. */
  lemma SymmetricStream(ys: seq<real>, y: Signal, length: nat, axis: int)
    requires |ys| == length == axis + 1 && AgreeBefore(Past(ys), y, length)
    requires Same(y, Reflect(y, axis))
    ensures Palindromic(ys)
  {
    SymmetricBlock(ys, y);
  }

  /** The reported latency is exact: a symmetric pulse followed by `2 * LatencySamples`
      zeros leaves the engine as a symmetric block of the same total length, so the
      pulse's centre has moved by exactly `LatencySamples` native samples. */
  lemma PulseLatency(factor: Factor, up: Filter, down: Filter, pulse: seq<real>)
    requires Filters(up, down) && Palindromic(up.Kernel()) && Palindromic(down.Kernel())
    requires Palindromic(pulse)
    ensures Palindromic(DownStream(factor, down, UpStream(factor, up, Padded(pulse, 2 * LatencySamples(factor)))))
  {
    PaddedPulse(pulse, 2 * LatencySamples(factor));
    SymmetricRoundTrip(factor, up, down, Padded(pulse, 2 * LatencySamples(factor)), |pulse| - 1);
  }

  // ----- the engine

  /** One or two stages, exactly as many as the factor needs. */
  datatype Stages = NoStage | OneStage(stage1: X2Stage) | TwoStages(stage1: X2Stage, stage2: X2Stage)

  method BuildStages(factor: Factor, up: Filter, down: Filter) returns (stages: Stages)
    requires Filters(up, down)
    ensures StagesFit(stages, factor, up, down)
    ensures fresh(Objects(stages)) && AtRestStages(stages)
  {
    if factor == Off {
      stages := NoStage;
    } else {
      var s := new X2Stage(up, down);
      if factor == X2 {
        stages := OneStage(s);
      } else {
        var t := new X2Stage(up, down);
        stages := TwoStages(s, t);
      }
    }
  }

  ghost predicate AtRestStage(s: X2Stage)
    reads s.Repr()
  {
    s.Valid() && s.upHistory == [] && s.downHistory == []
  }

  ghost predicate AtRestStages(stages: Stages)
    reads Objects(stages)
  {
    match stages
    case NoStage => true
    case OneStage(s) => AtRestStage(s)
    case TwoStages(s, t) => AtRestStage(s) && AtRestStage(t)
  }

  twostate lemma StillAtRest(stages: Stages)
    requires old(AtRestStages(stages)) && unchanged(Objects(stages))
    ensures AtRestStages(stages)
  {
  }

  /** The right number of stages, disjoint, all with the engine's two filters. */
  ghost predicate StagesFit(stages: Stages, factor: Factor, up: Filter, down: Filter) {
    match stages
    case NoStage => factor == Off
    case OneStage(s) => factor == X2 && s.upFilter == up && s.downFilter == down
    case TwoStages(s, t) =>
      && factor == X4 && s.Repr() !! t.Repr()
      && s.upFilter == t.upFilter == up && s.downFilter == t.downFilter == down
  }

  ghost function Objects(stages: Stages): set<object> {
    match stages
    case NoStage => {}
    case OneStage(s) => s.Repr()
    case TwoStages(s, t) => s.Repr() + t.Repr()
  }

  /** Two upsampling stages back to back, the second fed from `mid`. */
  method CascadeUp(s: X2Stage, t: X2Stage, mid: array<real>, block: seq<real>, output: array<real>) returns (written: nat)
    requires s.Valid() && t.Valid() && s.Repr() !! t.Repr() && mid != output
    requires mid !in s.Repr() + t.Repr() && output !in s.Repr() + t.Repr()
    requires 2 * |block| <= mid.Length && 4 * |block| <= output.Length
    requires s.upFilter == t.upFilter && t.upHistory == Upsampled(s.upFilter, s.upHistory)
    modifies s`upPos, s`upHistory, s.upRing, t`upPos, t`upHistory, t.upRing, mid, output
    ensures s.Valid() && t.Valid()
    ensures s.upHistory == old(s.upHistory) + block && t.upHistory == Upsampled(s.upFilter, s.upHistory)
    ensures written == 4 * |block|
    ensures output[..written] == Upsampled(s.upFilter, t.upHistory)[4 * |old(s.upHistory)|..]
    ensures forall k :: written <= k < output.Length ==> output[k] == old(output[k])
  {
    var n2 := s.Upsample(block, mid, 2 * |block|);
    assert block[..|block|] == block;
    UpsampledPrefix(s.upFilter, old(s.upHistory), block);
    ghost var inner := mid[..n2];
    assert inner[..n2] == inner;
    assert old(t.upHistory) + inner == Upsampled(s.upFilter, s.upHistory);
    written := t.Upsample(mid[..n2], output, output.Length);
  }

  /** A stage fed whole pairs emits everything its decimated stream gains. */
  method DecimateWhole(s: X2Stage, block: seq<real>, output: array<real>) returns (written: nat)
    requires s.Valid() && output !in s.Repr()
    requires |s.downHistory| % 2 == 0 && |block| % 2 == 0 && |block| / 2 <= output.Length
    modifies s`downPosEven, s`downPosOdd, s`downTotal, s`downHistory, s.downRingEven, s.downRingOdd, output
    ensures s.Valid() && s.downHistory == old(s.downHistory) + block && |s.downHistory| % 2 == 0
    ensures written == |block| / 2
    ensures output[..written] == Decimated(s.downFilter, s.downHistory)[|old(s.downHistory)| / 2..]
    ensures Decimated(s.downFilter, old(s.downHistory)) + output[..written] == Decimated(s.downFilter, s.downHistory)
    ensures forall k :: written <= k < output.Length ==> output[k] == old(output[k])
  {
    written := s.Downsample(block, output, output.Length);
    Remainder(s.downFilter, old(s.downHistory), block, output[..written]);
  }

  lemma Remainder(f: Filter, past: seq<real>, block: seq<real>, outs: seq<real>)
    requires f.Valid() && |past| % 2 == 0 && |block| % 2 == 0
    requires |outs| == |block| / 2 && outs == Decimated(f, past + block)[(|past| + 1) / 2..][..|outs|]
    ensures outs == Decimated(f, past + block)[|past| / 2..]
    ensures Decimated(f, past) + outs == Decimated(f, past + block)
  {
    DecimatedPrefix(f, past, block);
  }

  lemma Quarters(n: nat)
    requires n % 4 == 0
    ensures n % 2 == 0 && (n / 2) % 2 == 0 && (n + 1) / 2 == n / 2 && n / 2 / 2 == n / 4
  {
    var q := n / 4;
    assert n == 4 * q;
    assert n / 2 == 2 * q;
  }

  method CopyBlock(block: seq<real>, output: array<real>) returns (written: nat)
    requires |block| <= output.Length
    modifies output
    ensures written == |block| && output[..written] == block
    ensures forall k :: written <= k < output.Length ==> output[k] == old(output[k])
  {
    written := Min(|block|, output.Length);
    forall k | 0 <= k < written { output[k] := block[k]; }
  }

  /** Two decimating stages back to back, the second fed from `mid`. */
  method CascadeDown(s: X2Stage, t: X2Stage, mid: array<real>, block: seq<real>, output: array<real>) returns (written: nat)
    requires s.Valid() && t.Valid() && s.Repr() !! t.Repr() && mid != output
    requires mid !in s.Repr() + t.Repr() && output !in s.Repr() + t.Repr()
    requires |block| % 4 == 0 && |block| / 2 <= mid.Length && |block| / 4 <= output.Length
    requires s.downFilter == t.downFilter && s.downHistory == Decimated(s.downFilter, t.downHistory)
    requires |t.downHistory| % 4 == 0
    modifies s`downPosEven, s`downPosOdd, s`downTotal, s`downHistory, s.downRingEven, s.downRingOdd
    modifies t`downPosEven, t`downPosOdd, t`downTotal, t`downHistory, t.downRingEven, t.downRingOdd, mid, output
    ensures s.Valid() && t.Valid()
    ensures t.downHistory == old(t.downHistory) + block && s.downHistory == Decimated(s.downFilter, t.downHistory)
    ensures written == |block| / 4
    ensures output[..written] == Decimated(s.downFilter, s.downHistory)[|old(t.downHistory)| / 4..]
    ensures forall k :: written <= k < output.Length ==> output[k] == old(output[k])
  {
    Quarters(|t.downHistory|);
    Quarters(|block|);
    var n2 := DecimateWhole(t, block, mid);
    written := DecimateWhole(s, mid[..n2], output);
  }

  class OversampleEngine {
    const factor: Factor
    const stages: Stages
    const interBuf: array<real>
    const maxSamples: nat
    const upFilter: Filter
    const downFilter: Filter

    /** Native samples accepted by `Upsample`, oversampled ones accepted by `Downsample`. */
    ghost var upHistory: seq<real>
    ghost var downHistory: seq<real>

    ghost function Repr(): set<object> {
      {this, interBuf} + Objects(stages)
    }

    /** The parts that never change after construction. */
    ghost predicate WellBuilt() {
      && Filters(upFilter, downFilter)
      && StagesFit(stages, factor, upFilter, downFilter)
      && interBuf !in Objects(stages)
      && (factor == X4 ==> interBuf.Length == 2 * maxSamples)
    }

    ghost predicate Valid()
      reads Repr()
    {
      && WellBuilt()
      && factor.Whole(|downHistory|)
      && HistoriesAre(upHistory, downHistory)
    }

    /** The stages have seen exactly the streams that `up` and `down` induce. */
    ghost predicate HistoriesAre(up: seq<real>, down: seq<real>)
      requires Filters(upFilter, downFilter)
      reads Objects(stages)
    {
      match stages
      case NoStage => true
      case OneStage(s) => s.Valid() && s.upHistory == up && s.downHistory == down
      case TwoStages(s, t) =>
        && s.Valid() && t.Valid()
        && s.upHistory == up && t.upHistory == Upsampled(upFilter, up)
        && t.downHistory == down && s.downHistory == Decimated(downFilter, down)
    }

    constructor (factor: Factor, maxInputSamples: nat, up: Filter, down: Filter)
      requires Filters(up, down)
      ensures Valid() && fresh(Repr())
      ensures this.factor == factor && maxSamples == maxInputSamples && upFilter == up && downFilter == down
      ensures upHistory == [] && downHistory == []
    {
      this.factor, maxSamples, upFilter, downFilter := factor, maxInputSamples, up, down;
      var interSize := if factor == X4 then maxInputSamples * 2 else 1;
      interBuf := new real[interSize](_ => 0.0);
      var built := BuildStages(factor, up, down);
      label Built:
      stages := built;
      upHistory, downHistory := [], [];
      new;
      StillAtRest@Built(built);
      RestIsValid();
    }

    /** Stages at rest have seen the streams that empty histories induce. */
    lemma RestIsValid()
      requires WellBuilt() && AtRestStages(stages) && upHistory == [] && downHistory == []
      ensures Valid()
    {
      assert Upsampled(upFilter, []) == [] && Decimated(downFilter, []) == [];
    }

    /** Clears every delay line, phase counter and the inter-stage scratch. */
    method Reset()
      requires WellBuilt()
      requires stages.OneStage? ==> stages.stage1.Separate()
      requires stages.TwoStages? ==> stages.stage1.Separate() && stages.stage2.Separate()
      modifies Repr()
      ensures Valid() && upHistory == [] && downHistory == []
      ensures forall k :: 0 <= k < interBuf.Length ==> interBuf[k] == 0.0
    {
      forall k | 0 <= k < interBuf.Length { interBuf[k] := 0.0; }
      match stages {
        case NoStage =>
        case OneStage(s) => s.Reset();
        case TwoStages(s, t) =>
          s.Reset();
          t.Reset();
      }
      upHistory, downHistory := [], [];
    }

    /** How many of `len` native samples `Upsample` accepts into `room` output cells. */
    function Accepted(len: nat, room: nat): nat {
      Min(Min(len, maxSamples), factor.Over(room))
    }

    /** Nothing that fits is refused, and nothing else is accepted. */
    lemma AcceptedExactly(len: nat, room: nat, m: nat)
      ensures m <= Accepted(len, room) <==> m <= len && m <= maxSamples && m * factor.Multiplier() <= room
    {
    }

    /** Upsamples `input` into `output`. Whatever does not fit the engine or the
        output buffer is dropped, and dropping anything raises the host-contract flag. */
    method Upsample(input: seq<real>, output: array<real>, rtStatus: RtStatusFlags?) returns (written: nat)
      requires Valid() && output !in Repr() && (rtStatus != null ==> rtStatus !in Repr())
      modifies Repr(), output, rtStatus
      ensures Valid() && downHistory == old(downHistory)
      ensures written == factor.Times(Accepted(|input|, output.Length))
      ensures upHistory == old(upHistory) + input[..Accepted(|input|, output.Length)]
      ensures output[..written] == UpBlock(factor, upFilter, old(upHistory), input[..Accepted(|input|, output.Length)])
      ensures forall k :: written <= k < output.Length ==> output[k] == old(output[k])
      ensures rtStatus != null ==>
        rtStatus.hostContractViolation == (old(rtStatus.hostContractViolation) || Accepted(|input|, output.Length) < |input|)
    {
      var nIn := ClampUp(|input|, output.Length, rtStatus);
      written := RunUp(input[..nIn], output);
    }

    /** Clamping, with the flag raised if it bites. */
    method ClampUp(len: nat, room: nat, rtStatus: RtStatusFlags?) returns (nIn: nat)
      requires Valid() && (rtStatus != null ==> rtStatus !in Repr())
      modifies rtStatus
      ensures Valid() && nIn == Accepted(len, room)
      ensures rtStatus != null ==> rtStatus.hostContractViolation == (old(rtStatus.hostContractViolation) || nIn < len)
    {
      nIn := Min(len, maxSamples);
      nIn := Min(nIn, factor.Over(room));
      if nIn != len && rtStatus != null {
        rtStatus.hostContractViolation := true;
      }
    }

    method RunUp(block: seq<real>, output: array<real>) returns (written: nat)
      requires Valid() && output !in Repr()
      requires |block| <= maxSamples && factor.Times(|block|) <= output.Length
      modifies Repr(), output
      ensures Valid() && downHistory == old(downHistory)
      ensures upHistory == old(upHistory) + block
      ensures written == factor.Times(|block|)
      ensures output[..written] == UpBlock(factor, upFilter, old(upHistory), block)
      ensures forall k :: written <= k < output.Length ==> output[k] == old(output[k])
    {
      upHistory := upHistory + block;
      match stages {
        case NoStage =>
          written := CopyBlock(block, output);
        case OneStage(s) =>
          written := s.Upsample(block, output, output.Length);
          assert block[..|block|] == block;
        case TwoStages(s, t) =>
          written := CascadeUp(s, t, interBuf, block, output);
      }
    }

    /** How many of `len` oversampled samples `Downsample` accepts for `room` output
        cells: clamped to capacity, then aligned down to whole native samples. */
    function Taken(len: nat, room: nat): (n: nat)
      ensures n <= len && n <= factor.Times(maxSamples) && n <= factor.Times(room) && factor.Whole(n)
    {
      var fits := Min(Min(len, factor.Times(maxSamples)), factor.Times(room));
      AlignedDown(factor, fits);
      factor.Times(factor.Over(fits))
    }

    /** And no whole number of samples that fits is refused. */
    lemma TakenExactly(len: nat, room: nat, m: nat)
      ensures Taken(len, room) % factor.Multiplier() == 0
      ensures m % factor.Multiplier() == 0 ==>
        (m <= Taken(len, room) <==> m <= len && m <= factor.Multiplier() * maxSamples && m <= factor.Multiplier() * room)
    {
      LargestWhole(factor, Taken(len, room), Taken(len, room));
      LargestWhole(factor, maxSamples, 0);
      LargestWhole(factor, room, 0);
      LargestWhole(factor, m, 0);
      var fits := Min(Min(len, factor.Times(maxSamples)), factor.Times(room));
      if factor.Whole(m) && m <= fits {
        LargestWhole(factor, fits, m);
      }
    }

    /** Downsamples `input` into `output`. Whatever does not fit, or does not make a
        whole native sample, is dropped, and dropping anything raises the flag. */
    method Downsample(input: seq<real>, output: array<real>, rtStatus: RtStatusFlags?) returns (written: nat)
      requires Valid() && output !in Repr() && (rtStatus != null ==> rtStatus !in Repr())
      modifies Repr(), output, rtStatus
      ensures Valid() && upHistory == old(upHistory)
      ensures written == factor.Over(Taken(|input|, output.Length))
      ensures downHistory == old(downHistory) + input[..Taken(|input|, output.Length)]
      ensures output[..written] == DownBlock(factor, downFilter, old(downHistory), input[..Taken(|input|, output.Length)])
      ensures forall k :: written <= k < output.Length ==> output[k] == old(output[k])
      ensures rtStatus != null ==>
        rtStatus.hostContractViolation == (old(rtStatus.hostContractViolation) || Taken(|input|, output.Length) < |input|)
    {
      var nIn := ClampDown(|input|, output.Length, rtStatus);
      written := RunDown(input[..nIn], output);
    }

    /** Clamping and alignment, with the flag raised if either bites. */
    method ClampDown(len: nat, room: nat, rtStatus: RtStatusFlags?) returns (nIn: nat)
      requires Valid() && (rtStatus != null ==> rtStatus !in Repr())
      modifies rtStatus
      ensures Valid() && nIn == Taken(len, room)
      ensures rtStatus != null ==> rtStatus.hostContractViolation == (old(rtStatus.hostContractViolation) || nIn < len)
    {
      nIn := Min(Min(len, factor.Times(maxSamples)), factor.Times(room));
      var aligned := factor.Times(factor.Over(nIn));
      if aligned != nIn {
        if rtStatus != null {
          rtStatus.hostContractViolation := true;
        }
        nIn := aligned;
      } else if nIn != len && rtStatus != null {
        rtStatus.hostContractViolation := true;
      }
    }

    method RunDown(block: seq<real>, output: array<real>) returns (written: nat)
      requires Valid() && output !in Repr() && factor.Whole(|block|)
      requires |block| <= factor.Times(maxSamples) && |block| <= factor.Times(output.Length)
      modifies Repr(), output
      ensures Valid() && upHistory == old(upHistory)
      ensures downHistory == old(downHistory) + block
      ensures written == factor.Over(|block|)
      ensures output[..written] == DownBlock(factor, downFilter, old(downHistory), block)
      ensures forall k :: written <= k < output.Length ==> output[k] == old(output[k])
    {
      DownLength(factor, |downHistory|, |block|);
      downHistory := downHistory + block;
      assert factor.Whole(|downHistory|);
      match stages {
        case NoStage =>
          written := CopyBlock(block, output);
        case OneStage(s) =>
          written := DecimateWhole(s, block, output);
        case TwoStages(s, t) =>
          written := CascadeDown(s, t, interBuf, block, output);
      }
    }
  }
}
