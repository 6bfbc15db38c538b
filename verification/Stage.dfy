/** One 2x oversampling stage: mirrored double-write delay lines, phase-batched
    loops and an even/odd demultiplexer, proved to compute the plain convolution
    of the stage's whole input history, however that history is cut into calls. */
module Stage {
  import opened Basics
  import opened Signals
  import opened HalfBand

  const UP_LEN: nat := HB_DELAY
  const DOWN_EVEN_LEN: nat := 13  // HB_TAPS / 2, rounded up
  const DOWN_ODD_LEN: nat := 12  // HB_TAPS / 2

  function NextPhase(p: nat, len: nat): nat {
    if p + 1 == len then 0 else p + 1
  }

  /** A head that may have just reached the end of the ring. */
  function Wrap(p: nat, len: nat): nat {
    if p == len then 0 else p
  }

  lemma ModWrap(p: nat, len: nat)
    requires p <= len && 0 < len
    ensures p % len == Wrap(p, len)
  {
  }

  // ----- mirrored rings

  /** The last `n` samples of `hist`, oldest first, with silence before the first one. */
  ghost function Tail(hist: seq<real>, n: nat): (t: seq<real>)
    ensures |t| == n
    ensures forall k :: 0 <= k < n ==> t[k] == Past(hist)(|hist| - n + k)
  {
    seq(n, (k: int) => Past(hist)(|hist| - n + k))
  }

  lemma TailPush(hist: seq<real>, n: nat, x: real)
    requires n > 0
    ensures Tail(hist + [x], n) == Tail(hist, n)[1..] + [x]
  {
  }

  /** `ring` is a mirrored delay line of capacity `n` whose write head is `pos`:
      both halves agree, and the `n` cells from the head on are the last `n`
      samples of `hist`. */
  ghost predicate Holds(ring: seq<real>, pos: nat, n: nat, hist: seq<real>) {
    && pos < n && |ring| == 2 * n
    && ring[..n] == ring[n..]
    && ring[pos..pos + n] == Tail(hist, n)
  }

  /** Writing one sample at the head and at its mirror image advances the window. */
  lemma Push(ring: seq<real>, pos: nat, n: nat, hist: seq<real>, x: real)
    requires Holds(ring, pos, n, hist)
    ensures Holds(ring[pos := x][pos + n := x], NextPhase(pos, n), n, hist + [x])
  {
    var next := ring[pos := x][pos + n := x];
    forall k | 0 <= k < n ensures next[..n][k] == next[n..][k] {
      assert ring[..n][k] == ring[n..][k];
    }
    TailPush(hist, n, x);
    assert next[pos + 1..pos + 1 + n - 1] == ring[pos..pos + n][1..];
    if pos + 1 == n {
      assert next[..n] == ring[..n - 1] + [x];
      assert ring[n..2 * n - 1] == ring[n..][..n - 1] == ring[..n][..n - 1] == ring[..n - 1];
    }
  }

  /** The `n` cells after a freshly written cell, read without wrapping. */
  lemma Window(ring: seq<real>, p: nat, n: nat, hist: seq<real>)
    requires p < n && Holds(ring, NextPhase(p, n), n, hist)
    ensures ring[p + 1..p + 1 + n] == Tail(hist, n)
  {
  }

  lemma AtRest(ring: seq<real>, n: nat)
    requires 0 < n && |ring| == 2 * n && forall k :: 0 <= k < 2 * n ==> ring[k] == 0.0
    ensures Holds(ring, 0, n, [])
  {
    assert ring[..n] == Tail([], n);
  }

  /** The double write: one store at the head, one at its mirror image. */
  method WriteMirrored(ring: array<real>, p: nat, n: nat, x: real, ghost hist: seq<real>)
    requires Holds(ring[..], p, n, hist)
    modifies ring
    ensures Holds(ring[..], NextPhase(p, n), n, hist + [x])
  {
    Push(ring[..], p, n, hist, x);
    ghost var before := ring[..];
    ring[p] := x;
    ring[p + n] := x;
    assert ring[..] == before[p := x][p + n := x];
  }

  // ----- the specification: convolution over the whole history

  /** Zero-stuff, then filter: two outputs per input sample. */
  ghost function Upsampled(f: Filter, xs: seq<real>): (ys: seq<real>)
    requires f.Valid()
    ensures |ys| == 2 * |xs|
  {
    seq(2 * |xs|, (n: int) => Fir(f.Kernel(), Stuff(Past(xs)))(n))
  }

  /** Filter, then keep every even-numbered output. */
  ghost function Decimated(f: Filter, xs: seq<real>): (ys: seq<real>)
    requires f.Valid()
    ensures |ys| == (|xs| + 1) / 2
  {
    seq((|xs| + 1) / 2, (m: int) => Fir(f.Kernel(), Past(xs))(2 * m))
  }

  ghost function Evens(xs: seq<real>): (es: seq<real>)
    ensures |es| == (|xs| + 1) / 2
  {
    seq((|xs| + 1) / 2, (k: int) requires 0 <= k < (|xs| + 1) / 2 => xs[2 * k])
  }

  ghost function Odds(xs: seq<real>): (os: seq<real>)
    ensures |os| == |xs| / 2
  {
    seq(|xs| / 2, (k: int) requires 0 <= k < |xs| / 2 => xs[2 * k + 1])
  }

  lemma EvensOddsPush(xs: seq<real>, x: real)
    ensures |xs| % 2 == 0 ==> Evens(xs + [x]) == Evens(xs) + [x] && Odds(xs + [x]) == Odds(xs)
    ensures |xs| % 2 == 1 ==> Evens(xs + [x]) == Evens(xs) && Odds(xs + [x]) == Odds(xs) + [x]
  {
  }

  /** Outputs already produced are never revised by later input (causality), so
      what a call emits is the next stretch of one fixed output stream. */
  lemma UpsampledPrefix(f: Filter, xs: seq<real>, more: seq<real>)
    requires f.Valid()
    ensures Upsampled(f, xs) == Upsampled(f, xs + more)[..2 * |xs|]
  {
    forall n | 0 <= n < 2 * |xs|
      ensures Upsampled(f, xs)[n] == Upsampled(f, xs + more)[n]
    {
      forall k | n - HB_TAPS < k <= n ensures Stuff(Past(xs))(k) == Stuff(Past(xs + more))(k) {}
      FirAgrees(f.Kernel(), Stuff(Past(xs)), Stuff(Past(xs + more)), n);
    }
  }

  lemma DecimatedPrefix(f: Filter, xs: seq<real>, more: seq<real>)
    requires f.Valid()
    ensures Decimated(f, xs) == Decimated(f, xs + more)[..(|xs| + 1) / 2]
  {
    forall m | 0 <= m < (|xs| + 1) / 2
      ensures Decimated(f, xs)[m] == Decimated(f, xs + more)[m]
    {
      FirAgrees(f.Kernel(), Past(xs), Past(xs + more), 2 * m);
    }
  }

  /** One upsampled pair, read off the delay line at native time `t`. */
  lemma UpsampledPair(f: Filter, xs: seq<real>, t: nat, w: seq<real>)
    requires f.Valid() && t < |xs| && w == Tail(xs[..t + 1], UP_LEN)
    ensures Upsampled(f, xs)[2 * t] == w[5] * f.center
    ensures Upsampled(f, xs)[2 * t + 1] == Dot(f.coeffs, w, HB_ODD_COUNT)
  {
    StuffedFir(f, Past(xs), w, t);
  }

  /** The centre tap plus the dot product over the odd taps. */
  function DecimatedSample(f: Filter, mid: real, w: seq<real>): real
    requires f.Valid() && |w| == HB_ODD_COUNT
  {
    mid * f.center + Dot(f.coeffs, w, HB_ODD_COUNT)
  }

  /** One decimated output, read off the two delay lines once sample `2m` has arrived. */
  lemma DecimatedOutput(f: Filter, xs: seq<real>, m: nat, mid: real, w: seq<real>)
    requires f.Valid() && 2 * m < |xs|
    requires mid == Tail(Evens(xs[..2 * m + 1]), DOWN_EVEN_LEN)[6]
    requires w == Tail(Odds(xs[..2 * m + 1]), DOWN_ODD_LEN)
    ensures Decimated(f, xs)[m] == DecimatedSample(f, mid, w)
  {
    assert mid == Past(xs)(2 * m - HB_DELAY) by {
      if m >= 6 { assert Evens(xs[..2 * m + 1])[m - 6] == xs[2 * (m - 6)]; }
    }
    forall j | 0 <= j < HB_ODD_COUNT ensures w[j] == Past(xs)(2 * (m - 12 + j) + 1) {
      if m - 12 + j >= 0 { assert Odds(xs[..2 * m + 1])[m - 12 + j] == xs[2 * (m - 12 + j) + 1]; }
    }
    DecimatedFir(f, Past(xs), w, m);
  }

  // ----- progress of one call

  /** The history is `start` followed by the first `i` samples of the call's input. */
  ghost predicate Consumed(start: seq<real>, input: seq<real>, i: nat, hist: seq<real>) {
    i <= |input| && hist == start + input[..i]
  }

  lemma ConsumeOne(start: seq<real>, input: seq<real>, i: nat, hist: seq<real>)
    requires Consumed(start, input, i, hist) && i < |input|
    ensures Consumed(start, input, i + 1, hist + [input[i]])
  {
  }

  /** `outs` is what the stream of `hist` adds to the stream of `start`. */
  ghost predicate UpEmitted(f: Filter, start: seq<real>, hist: seq<real>, outs: seq<real>) {
    f.Valid() && |start| <= |hist| && outs == Upsampled(f, hist)[2 * |start|..]
  }

  lemma NewPair(f: Filter, start: seq<real>, hist: seq<real>, x: real, w: seq<real>, evenOut: real, oddOut: real, outs: seq<real>)
    requires UpEmitted(f, start, hist, outs)
    requires w == Tail(hist + [x], UP_LEN)
    requires evenOut == w[5] * f.center && oddOut == Dot(f.coeffs, w, HB_ODD_COUNT)
    ensures UpEmitted(f, start, hist + [x], outs + [evenOut, oddOut])
  {
    var grown := hist + [x];
    assert grown[..|hist| + 1] == grown;
    UpsampledPair(f, grown, |hist|, w);
    UpsampledPrefix(f, hist, [x]);
    assert Upsampled(f, grown) == Upsampled(f, hist) + [evenOut, oddOut];
  }

  ghost function Take(s: seq<real>, k: nat): seq<real> {
    if |s| <= k then s else s[..k]
  }

  /** `outs` is what the decimated stream of `hist` adds to that of `start`, up to `cap` outputs. */
  ghost predicate DownEmitted(f: Filter, start: seq<real>, hist: seq<real>, outs: seq<real>, cap: nat) {
    f.Valid() && |start| <= |hist| && outs == Take(Decimated(f, hist)[(|start| + 1) / 2..], cap)
  }

  /** An even-phase sample owes one more output, unless the cap is reached ... */
  lemma DownEven(f: Filter, start: seq<real>, hist: seq<real>, x: real, outs: seq<real>, cap: nat, next: seq<real>)
    requires DownEmitted(f, start, hist, outs, cap) && |hist| % 2 == 0
    requires |outs| < cap ==> next == outs + [Decimated(f, hist + [x])[|hist| / 2]]
    requires |outs| >= cap ==> next == outs
    ensures DownEmitted(f, start, hist + [x], next, cap)
  {
    DecimatedPrefix(f, hist, [x]);
    assert Decimated(f, hist + [x]) == Decimated(f, hist) + [Decimated(f, hist + [x])[|hist| / 2]];
  }

  /** ... and an odd-phase sample owes none. */
  lemma DownOdd(f: Filter, start: seq<real>, hist: seq<real>, x: real, outs: seq<real>, cap: nat)
    requires DownEmitted(f, start, hist, outs, cap) && |hist| % 2 == 1
    ensures DownEmitted(f, start, hist + [x], outs, cap)
  {
    DecimatedPrefix(f, hist, [x]);
    assert Decimated(f, hist + [x]) == Decimated(f, hist);
  }

  /** A call of `|input|` samples owes at least `|input| / 2` outputs. */
  lemma DownDone(f: Filter, start: seq<real>, input: seq<real>, hist: seq<real>, outs: seq<real>, cap: nat)
    requires Consumed(start, input, |input|, hist) && DownEmitted(f, start, hist, outs, cap)
    requires cap <= |input| / 2
    ensures hist == start + input
    ensures |outs| == cap && outs == Decimated(f, hist)[(|start| + 1) / 2..][..cap]
  {
    assert input[..|input|] == input;
  }

  // ----- the stage

  class X2Stage {
    const upFilter: Filter
    const downFilter: Filter
    const upRing: array<real>
    var upPos: nat
    const downRingEven: array<real>
    const downRingOdd: array<real>
    var downPosEven: nat
    var downPosOdd: nat
    var downTotal: nat

    /** Every sample consumed by `Upsample` (by `Downsample`) since the last reset. */
    ghost var upHistory: seq<real>
    ghost var downHistory: seq<real>

    ghost function Repr(): set<object> {
      {this, upRing, downRingEven, downRingOdd}
    }

    ghost predicate Separate() {
      && upFilter.Valid() && downFilter.Valid()
      && upRing.Length == 2 * UP_LEN
      && downRingEven.Length == 2 * DOWN_EVEN_LEN
      && downRingOdd.Length == 2 * DOWN_ODD_LEN
      && upRing != downRingEven && upRing != downRingOdd && downRingEven != downRingOdd
    }

    ghost predicate UpValid()
      reads this, upRing
    {
      Separate() && Holds(upRing[..], upPos, UP_LEN, upHistory)
    }

    ghost predicate DownValid()
      reads this, downRingEven, downRingOdd
    {
      && Separate()
      && downTotal == |downHistory|
      && Holds(downRingEven[..], downPosEven, DOWN_EVEN_LEN, Evens(downHistory))
      && Holds(downRingOdd[..], downPosOdd, DOWN_ODD_LEN, Odds(downHistory))
    }

    ghost predicate Valid()
      reads Repr()
    {
      UpValid() && DownValid()
    }

    constructor (upFilter: Filter, downFilter: Filter)
      requires upFilter.Valid() && downFilter.Valid()
      ensures Valid() && fresh(Repr())
      ensures this.upFilter == upFilter && this.downFilter == downFilter
      ensures upHistory == [] && downHistory == []
    {
      this.upFilter, this.downFilter := upFilter, downFilter;
      upRing := new real[2 * UP_LEN](_ => 0.0);
      upPos := 0;
      downRingEven := new real[2 * DOWN_EVEN_LEN](_ => 0.0);
      downRingOdd := new real[2 * DOWN_ODD_LEN](_ => 0.0);
      downPosEven, downPosOdd, downTotal := 0, 0, 0;
      upHistory, downHistory := [], [];
      new;
      AtRest(upRing[..], UP_LEN);
      AtRest(downRingEven[..], DOWN_EVEN_LEN);
      AtRest(downRingOdd[..], DOWN_ODD_LEN);
    }

    /** Back to the state of a newly built stage, cell for cell. */
    method Reset()
      requires Separate()
      modifies Repr()
      ensures Valid() && upHistory == [] && downHistory == []
      ensures upPos == 0 && downPosEven == 0 && downPosOdd == 0 && downTotal == 0
      ensures forall k :: 0 <= k < upRing.Length ==> upRing[k] == 0.0
      ensures forall k :: 0 <= k < downRingEven.Length ==> downRingEven[k] == 0.0
      ensures forall k :: 0 <= k < downRingOdd.Length ==> downRingOdd[k] == 0.0
    {
      forall k | 0 <= k < upRing.Length { upRing[k] := 0.0; }
      upPos := 0;
      forall k | 0 <= k < downRingEven.Length { downRingEven[k] := 0.0; }
      forall k | 0 <= k < downRingOdd.Length { downRingOdd[k] := 0.0; }
      downPosEven, downPosOdd, downTotal := 0, 0, 0;
      upHistory, downHistory := [], [];
      AtRest(upRing[..], UP_LEN);
      AtRest(downRingEven[..], DOWN_EVEN_LEN);
      AtRest(downRingOdd[..], DOWN_ODD_LEN);
    }

    /** Writes one native sample twice and returns the contiguous window that
        starts just after it. `p` is the write head within the current run. */
    method PushUp(x: real, p: nat) returns (window: seq<real>)
      requires Separate() && Holds(upRing[..], p, UP_LEN, upHistory)
      modifies this`upHistory, upRing
      ensures upHistory == old(upHistory) + [x]
      ensures Holds(upRing[..], NextPhase(p, UP_LEN), UP_LEN, upHistory)
      ensures window == Tail(upHistory, UP_LEN)
    {
      WriteMirrored(upRing, p, UP_LEN, x, upHistory);
      upHistory := upHistory + [x];
      Window(upRing[..], p, UP_LEN, upHistory);
      window := upRing[p + 1..p + 1 + HB_ODD_COUNT];
      assert window == upRing[..][p + 1..p + 1 + UP_LEN];
    }

    /** One native sample in, one even and one odd output sample out. `start` is
        the history at the beginning of the call whose output is being written. */
    method UpsampleSample(x: real, p: nat, output: array<real>, out: nat, ghost start: seq<real>)
      requires Separate() && output !in Repr() && out + 1 < output.Length
      requires Holds(upRing[..], p, UP_LEN, upHistory)
      requires UpEmitted(upFilter, start, upHistory, output[..out])
      modifies this`upHistory, upRing, output
      ensures upHistory == old(upHistory) + [x]
      ensures Holds(upRing[..], NextPhase(p, UP_LEN), UP_LEN, upHistory)
      ensures UpEmitted(upFilter, start, upHistory, output[..out + 2])
      ensures forall k :: out + 2 <= k < output.Length ==> output[k] == old(output[k])
    {
      var window := PushUp(x, p);
      var evenOut := window[5] * upFilter.center;
      var oddOut := Dot(upFilter.coeffs, window, HB_ODD_COUNT);
      NewPair(upFilter, start, old(upHistory), x, window, evenOut, oddOut, output[..out]);
      ghost var before := output[..out];
      output[out] := evenOut;
      output[out + 1] := oddOut;
      assert output[..out + 2] == before + [evenOut, oddOut];
    }

    /** A run of samples that does not wrap the write head: input `i..i + run`
        goes to output cells `2 * i..2 * (i + run)`. */
    method UpsampleRun(input: seq<real>, i: nat, run: nat, output: array<real>, ghost start: seq<real>)
      requires Separate() && output !in Repr()
      requires i + run <= |input| && 2 * (i + run) <= output.Length && upPos + run <= UP_LEN
      requires Holds(upRing[..], upPos, UP_LEN, upHistory)
      requires Consumed(start, input, i, upHistory) && UpEmitted(upFilter, start, upHistory, output[..2 * i])
      modifies this`upHistory, upRing, output
      ensures Holds(upRing[..], Wrap(upPos + run, UP_LEN), UP_LEN, upHistory)
      ensures Consumed(start, input, i + run, upHistory) && UpEmitted(upFilter, start, upHistory, output[..2 * (i + run)])
      ensures forall k :: 2 * (i + run) <= k < output.Length ==> output[k] == old(output[k])
    {
      for j := 0 to run
        invariant Holds(upRing[..], Wrap(upPos + j, UP_LEN), UP_LEN, upHistory)
        invariant Consumed(start, input, i + j, upHistory) && UpEmitted(upFilter, start, upHistory, output[..2 * (i + j)])
        invariant forall k :: 2 * (i + run) <= k < output.Length ==> output[k] == old(output[k])
      {
        ConsumeOne(start, input, i + j, upHistory);
        UpsampleSample(input[i + j], upPos + j, output, 2 * (i + j), start);
      }
    }

    /** Upsamples as much of `input` as fits in the first `room` cells of `output`.
        What it writes is the next stretch of the zero-stuffed convolution of
        everything upsampled so far; nothing else in `output` changes. */
    method Upsample(input: seq<real>, output: array<real>, room: nat) returns (written: nat)
      requires Valid() && room <= output.Length && output !in Repr()
      modifies this`upPos, this`upHistory, upRing, output
      ensures Valid()
      ensures written == 2 * Min(|input|, room / 2)
      ensures upHistory == old(upHistory) + input[..written / 2]
      ensures output[..written] == Upsampled(upFilter, upHistory)[2 * |old(upHistory)|..]
      ensures forall k :: written <= k < output.Length ==> output[k] == old(output[k])
    {
      var nIn := Min(|input|, room / 2);
      ghost var start := upHistory;
      var i := 0;
      while i < nIn
        invariant 0 <= i <= nIn
        invariant Separate() && Holds(upRing[..], upPos, UP_LEN, upHistory)
        invariant Consumed(start, input, i, upHistory) && UpEmitted(upFilter, start, upHistory, output[..2 * i])
        invariant forall k :: 2 * nIn <= k < output.Length ==> output[k] == old(output[k])
      {
        var run := Min(UP_LEN - upPos, nIn - i);
        UpsampleRun(input, i, run, output, start);
        ModWrap(upPos + run, UP_LEN);
        upPos := (upPos + run) % UP_LEN;
        i := i + run;
      }
      written := nIn * 2;
    }

    /** Writes one even-phase sample into the even delay line. */
    method WriteEvenSample(x: real)
      requires DownValid() && downTotal % 2 == 0
      modifies this`downPosEven, this`downTotal, this`downHistory, downRingEven
      ensures DownValid() && downHistory == old(downHistory) + [x]
    {
      var p := downPosEven;
      EvensOddsPush(downHistory, x);
      WriteMirrored(downRingEven, p, DOWN_EVEN_LEN, x, Evens(downHistory));
      downPosEven := NextPhase(p, DOWN_EVEN_LEN);
      downTotal := downTotal + 1;
      downHistory := downHistory + [x];
    }

    /** Writes one odd-phase sample into the odd delay line. */
    method WriteOddSample(x: real)
      requires DownValid() && downTotal % 2 == 1
      modifies this`downPosOdd, this`downTotal, this`downHistory, downRingOdd
      ensures DownValid() && downHistory == old(downHistory) + [x]
    {
      var p := downPosOdd;
      EvensOddsPush(downHistory, x);
      WriteMirrored(downRingOdd, p, DOWN_ODD_LEN, x, Odds(downHistory));
      downPosOdd := NextPhase(p, DOWN_ODD_LEN);
      downTotal := downTotal + 1;
      downHistory := downHistory + [x];
    }

    /** Computes the decimated sample for the even sample just written and
        appends it to `output` if there is room. */
    method EmitDownsampleOutput(output: array<real>, room: nat, outIdx: nat) returns (next: nat)
      requires DownValid() && downTotal % 2 == 1
      requires outIdx <= room <= output.Length && output !in Repr()
      modifies output
      ensures next == if outIdx < room then outIdx + 1 else outIdx
      ensures outIdx < room ==> output[..next] == old(output[..outIdx]) + [Decimated(downFilter, downHistory)[downTotal / 2]]
      ensures outIdx == room ==> output[..next] == old(output[..outIdx])
      ensures forall k :: next <= k < output.Length ==> output[k] == old(output[k])
    {
      ghost var m := downTotal / 2;
      assert downHistory[..2 * m + 1] == downHistory;
      var centerSample := downRingEven[downPosEven + 6];
      assert centerSample == downRingEven[..][downPosEven..downPosEven + DOWN_EVEN_LEN][6];
      var window := downRingOdd[downPosOdd..downPosOdd + HB_ODD_COUNT];
      assert window == downRingOdd[..][downPosOdd..downPosOdd + DOWN_ODD_LEN];
      DecimatedOutput(downFilter, downHistory, m, centerSample, window);
      var sum := DecimatedSample(downFilter, centerSample, window);
      assert sum == Decimated(downFilter, downHistory)[m];
      next := outIdx;
      if outIdx < room {
        ghost var outs := output[..outIdx];
        output[outIdx] := sum;
        next := outIdx + 1;
        assert output[..next] == outs + [sum];
      }
    }

    /** Demultiplexes `input` into the two delay lines and emits one output per
        completed pair into the first `room` cells of `output`. The outputs are the
        next entries of the filter-then-decimate stream of everything downsampled
        so far; there are `|input| / 2` of them, or as many as fit. */
    method Downsample(input: seq<real>, output: array<real>, room: nat) returns (outIdx: nat)
      requires Valid() && room <= output.Length && output !in Repr()
      modifies this`downPosEven, this`downPosOdd, this`downTotal, this`downHistory, downRingEven, downRingOdd, output
      ensures Valid()
      ensures downHistory == old(downHistory) + input
      ensures outIdx == Min(|input| / 2, room)
      ensures output[..outIdx] == Decimated(downFilter, downHistory)[(|old(downHistory)| + 1) / 2..][..outIdx]
      ensures forall k :: outIdx <= k < output.Length ==> output[k] == old(output[k])
    {
      ghost var start := downHistory;
      outIdx := Demultiplex(input, output, room, start);
      DownDone(downFilter, start, input, downHistory, output[..outIdx], Min(|input| / 2, room));
    }

    /** The three phases of a call: the odd half of a pair left open by the previous call,
        whole pairs, and a last even sample. */
    method Demultiplex(input: seq<real>, output: array<real>, room: nat, ghost start: seq<real>) returns (outIdx: nat)
      requires DownValid() && start == downHistory
      requires room <= output.Length && output !in Repr()
      modifies this`downPosEven, this`downPosOdd, this`downTotal, this`downHistory, downRingEven, downRingOdd, output
      ensures DownValid() && outIdx <= Min(|input| / 2, room)
      ensures Consumed(start, input, |input|, downHistory)
      ensures DownEmitted(downFilter, start, downHistory, output[..outIdx], Min(|input| / 2, room))
      ensures forall k :: outIdx <= k < output.Length ==> output[k] == old(output[k])
    {
      var maxOut := |input| / 2;
      var i := LeadingOdd(input, start, Min(maxOut, room));
      i, outIdx := PairLoop(input, i, output, room, maxOut, start);
      outIdx := TrailingEven(input, i, output, room, maxOut, outIdx, start);
    }

    /** An odd total means the first sample completes a pair begun by the previous call. */
    method LeadingOdd(input: seq<real>, ghost start: seq<real>, ghost cap: nat) returns (i: nat)
      requires DownValid() && start == downHistory
      modifies this`downPosOdd, this`downTotal, this`downHistory, downRingOdd
      ensures DownValid() && i <= |input| && (i < |input| ==> downTotal % 2 == 0)
      ensures Consumed(start, input, i, downHistory) && DownEmitted(downFilter, start, downHistory, [], cap)
    {
      i := 0;
      if downTotal % 2 == 1 && i < |input| {
        OddStep(input, i, start, [], cap);
        i := i + 1;
      }
    }

    /** The phase-batched loop: consumes whole even/odd pairs, without a parity branch. */
    method PairLoop(input: seq<real>, from: nat, output: array<real>, room: nat, maxOut: nat, ghost start: seq<real>)
      returns (i: nat, outIdx: nat)
      requires DownValid() && from <= |input| && (from < |input| ==> downTotal % 2 == 0)
      requires room <= output.Length && output !in Repr()
      requires Consumed(start, input, from, downHistory)
      requires DownEmitted(downFilter, start, downHistory, [], Min(maxOut, room))
      modifies this`downPosEven, this`downPosOdd, this`downTotal, this`downHistory, downRingEven, downRingOdd, output
      ensures DownValid() && from <= i <= |input| <= i + 1 && (i < |input| ==> downTotal % 2 == 0)
      ensures outIdx <= Min(maxOut, room)
      ensures Consumed(start, input, i, downHistory)
      ensures DownEmitted(downFilter, start, downHistory, output[..outIdx], Min(maxOut, room))
      ensures forall k :: outIdx <= k < output.Length ==> output[k] == old(output[k])
    {
      i, outIdx := from, 0;
      assert output[..0] == [];
      while i + 1 < |input|
        invariant from <= i <= |input| && outIdx <= Min(maxOut, room)
        invariant DownValid() && (i < |input| ==> downTotal % 2 == 0)
        invariant Consumed(start, input, i, downHistory)
        invariant DownEmitted(downFilter, start, downHistory, output[..outIdx], Min(maxOut, room))
        invariant forall k :: outIdx <= k < output.Length ==> output[k] == old(output[k])
      {
        outIdx := EvenStep(input, i, output, room, maxOut, outIdx, start);
        OddStep(input, i + 1, start, output[..outIdx], Min(maxOut, room));
        i := i + 2;
      }
    }

    /** A last unpaired sample is stored, and emits if an output is still owed. */
    method TrailingEven(input: seq<real>, i: nat, output: array<real>, room: nat, maxOut: nat, outIdx: nat, ghost start: seq<real>)
      returns (next: nat)
      requires DownValid() && i <= |input| <= i + 1 && (i < |input| ==> downTotal % 2 == 0)
      requires room <= output.Length && output !in Repr() && outIdx <= Min(maxOut, room)
      requires Consumed(start, input, i, downHistory)
      requires DownEmitted(downFilter, start, downHistory, output[..outIdx], Min(maxOut, room))
      modifies this`downPosEven, this`downTotal, this`downHistory, downRingEven, output
      ensures DownValid() && outIdx <= next <= Min(maxOut, room)
      ensures Consumed(start, input, |input|, downHistory)
      ensures DownEmitted(downFilter, start, downHistory, output[..next], Min(maxOut, room))
      ensures forall k :: next <= k < output.Length ==> output[k] == old(output[k])
    {
      next := outIdx;
      if i < |input| {
        next := EvenStep(input, i, output, room, maxOut, outIdx, start);
      }
    }

    /** The odd half of a pair: store the sample. */
    method OddStep(input: seq<real>, i: nat, ghost start: seq<real>, ghost outs: seq<real>, ghost cap: nat)
      requires DownValid() && downTotal % 2 == 1 && i < |input|
      requires Consumed(start, input, i, downHistory) && DownEmitted(downFilter, start, downHistory, outs, cap)
      modifies this`downPosOdd, this`downTotal, this`downHistory, downRingOdd
      ensures DownValid() && downTotal % 2 == 0
      ensures Consumed(start, input, i + 1, downHistory) && DownEmitted(downFilter, start, downHistory, outs, cap)
    {
      ConsumeOne(start, input, i, downHistory);
      DownOdd(downFilter, start, downHistory, input[i], outs, cap);
      WriteOddSample(input[i]);
    }

    /** The even half of a pair: store the sample, then emit while outputs are owed. */
    method EvenStep(input: seq<real>, i: nat, output: array<real>, room: nat, maxOut: nat, outIdx: nat, ghost start: seq<real>)
      returns (next: nat)
      requires DownValid() && downTotal % 2 == 0 && i < |input|
      requires room <= output.Length && output !in Repr() && outIdx <= Min(maxOut, room)
      requires Consumed(start, input, i, downHistory)
      requires DownEmitted(downFilter, start, downHistory, output[..outIdx], Min(maxOut, room))
      modifies this`downPosEven, this`downTotal, this`downHistory, downRingEven, output
      ensures DownValid() && downTotal % 2 == 1
      ensures outIdx <= next <= Min(maxOut, room)
      ensures Consumed(start, input, i + 1, downHistory)
      ensures DownEmitted(downFilter, start, downHistory, output[..next], Min(maxOut, room))
      ensures forall k :: next <= k < output.Length ==> output[k] == old(output[k])
    {
      ghost var outs, hist := output[..outIdx], downHistory;
      ConsumeOne(start, input, i, downHistory);
      WriteEvenSample(input[i]);
      next := outIdx;
      if downTotal % 2 == 1 && outIdx < maxOut {
        next := EmitDownsampleOutput(output, room, outIdx);
      }
      DownEven(downFilter, start, hist, input[i], outs, Min(maxOut, room), output[..next]);
    }
  }
}
