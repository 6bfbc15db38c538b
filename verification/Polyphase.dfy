/** Partition of a prototype filter into 256 sub-filters of 64 taps, each stored newest
    sample last. */
module Polyphase {
  import opened Basics

  const NUM_PHASES: nat := 256
  const TAPS_PER_PHASE: nat := 64
  const TOTAL: nat := 16384

  /** Where prototype coefficient n is stored, for n below TOTAL. */
  function Place(n: nat): int { n % 256 * 64 + (63 - n / 256) }

  function Source(k: nat): int { (63 - k % 64) * 256 + k / 64 }

  lemma Split(high: nat, low: nat, base: nat)
    requires low < base && (base == 64 || base == 256)
    ensures (high * base + low) / base == high && (high * base + low) % base == low
  {
    if base == 64 {
      assert (high * 64 + low) / 64 == high;
    } else {
      assert (high * 256 + low) / 256 == high;
    }
  }

  /** Every place is used by exactly one coefficient. */
  lemma PlaceIsABijection(n: nat)
    requires n < TOTAL
    ensures 0 <= Place(n) < TOTAL && Source(Place(n)) == n
    ensures 0 <= Source(n) < TOTAL && Place(Source(n)) == n
  {
    var phase, tap := n % 256, n / 256;
    Split(phase, 63 - tap, 64);
    var phase', tap' := n / 64, 63 - n % 64;
    Split(tap', phase', 256);
  }

  /** The coefficients before normalisation; missing ones are zero. */
  ghost function Placed(proto: seq<real>): (c: seq<real>)
    ensures |c| == TOTAL
    ensures forall k: nat :: k < TOTAL ==> c[k] == Gained(proto, Source(k))
  {
    seq(TOTAL, k requires 0 <= k < TOTAL => Gained(proto, Source(k)))
  }

  ghost function Gained(proto: seq<real>, n: int): real {
    if 0 <= n < |proto| then 256.0 * proto[n] else 0.0
  }

  /** One more coefficient changes one place. */
  lemma PlacedOneAt(proto: seq<real>, n: nat, k: nat)
    requires n < |proto| && k < TOTAL
    ensures Gained(proto[..n + 1], Source(k)) == if k == Place(n) && n < TOTAL then 256.0 * proto[n] else Gained(proto[..n], Source(k))
  {
    PlaceIsABijection(k);
    if n < TOTAL {
      PlaceIsABijection(n);
    }
  }

  lemma PlacedOne(proto: seq<real>, n: nat)
    requires n < |proto|
    ensures n < TOTAL ==> 0 <= Place(n) < TOTAL
    ensures Placed(proto[..n + 1]) ==
      if n < TOTAL then Placed(proto[..n])[Place(n) := 256.0 * proto[n]] else Placed(proto[..n])
  {
    if n < TOTAL {
      PlaceIsABijection(n);
    }
    forall k: nat | k < TOTAL
      ensures Gained(proto[..n + 1], Source(k)) == if k == Place(n) && n < TOTAL then 256.0 * proto[n] else Gained(proto[..n], Source(k))
    {
      PlacedOneAt(proto, n, k);
    }
  }

  ghost function Sum(s: seq<real>): real {
    if s == [] then 0.0 else Sum(s[..|s| - 1]) + s[|s| - 1]
  }

  /** A sub-filter divided by its sum, unless that is nearly zero. */
  ghost function Normalised(s: seq<real>): (r: seq<real>)
    ensures |r| == |s|
  {
    var sum := Sum(s);
    if Abs(sum) > 0.000000001 then Quotients(s, sum) else s
  }

  ghost function Quotients(s: seq<real>, d: real): (r: seq<real>)
    requires d != 0.0
    ensures |r| == |s| && forall k :: 0 <= k < |s| ==> r[k] == s[k] / d
  {
    seq(|s|, k requires 0 <= k < |s| => s[k] / d)
  }

  lemma {:induction false} SumOfQuotients(s: seq<real>, d: real)
    requires d != 0.0
    ensures Sum(Quotients(s, d)) == Sum(s) / d
  {
    if s != [] {
      var front := s[..|s| - 1];
      SumOfQuotients(front, d);
      SumOverDivisor(Sum(front), s[|s| - 1], d);
      assert Quotients(s, d)[..|s| - 1] == Quotients(front, d);
    }
  }

  lemma SumOverDivisor(a: real, b: real, d: real)
    requires d != 0.0
    ensures (a + b) / d == a / d + b / d
  {
  }

  /** Each phase passes a constant unchanged, unless its gain is nearly zero. */
  lemma NormalisedSum(s: seq<real>)
    ensures Sum(Normalised(s)) == if Abs(Sum(s)) > 0.000000001 then 1.0 else Sum(s)
  {
    var sum := Sum(s);
    if Abs(sum) > 0.000000001 {
      SumOfQuotients(s, sum);
      assert sum / sum == 1.0;
    }
  }

  // ----- the fast form and the slow form

  type Signal = int -> real

  /** The input at 256 times its rate, with zeros between samples. */
  ghost function ZeroStuffed(x: Signal, u: int): real {
    if u % 256 == 0 then x(u / 256) else 0.0
  }

  /** The prototype's first n taps applied to the zero-stuffed input. */
  ghost function Convolution(proto: seq<real>, x: Signal, t: int, n: nat): real
    requires n <= |proto|
  {
    if n == 0 then 0.0 else Convolution(proto, x, t, n - 1) + proto[n - 1] * ZeroStuffed(x, t - (n - 1))
  }

  /** The stored coefficients of one phase. */
  ghost function Phase(c: seq<real>, phase: nat): (b: seq<real>)
    requires |c| == TOTAL && phase < NUM_PHASES
    ensures |b| == 64 && forall k :: 0 <= k < 64 ==> b[k] == c[phase * 64 + k]
  {
    c[phase * 64..phase * 64 + 64]
  }

  /** A forward dot product of a phase with the latest input samples. */
  ghost function PhaseDot(b: seq<real>, x: Signal, m: int, taps: nat): real
    requires taps <= TAPS_PER_PHASE == |b|
  {
    if taps == 0 then 0.0 else PhaseDot(b, x, m, taps - 1) + b[64 - taps] * x(m - (taps - 1))
  }

  /** What a phase makes of the input: the dot product over all its taps. */
  ghost function PhaseOutput(b: seq<real>, x: Signal, m: int): real
    requires |b| == TAPS_PER_PHASE
  {
    PhaseDot(b, x, m, |b|)
  }

  ghost function Cut(proto: seq<real>, n: nat): nat { if n <= |proto| then n else |proto| }

  lemma StuffedAt(x: Signal, m: int, phase: nat, k: nat, j: nat)
    requires phase < 256 && j < 256
    ensures ZeroStuffed(x, m * 256 + phase - (k * 256 + j)) == if j == phase then x(m - k) else 0.0
  {
    var u := m * 256 + phase - (k * 256 + j);
    assert u == (m - k) * 256 + (phase - j);
    if j == phase {
      assert u % 256 == 0 && u / 256 == m - k;
    } else {
      assert u % 256 != 0;
    }
  }

  /** Inside one stretch of 256 prototype taps, only one meets an input sample. */
  lemma {:induction false} Stretch(proto: seq<real>, phase: nat, x: Signal, m: int, k: nat, i: nat)
    requires phase < 256 && i <= 256
    ensures Convolution(proto, x, m * 256 + phase, Cut(proto, k * 256 + i)) ==
      Convolution(proto, x, m * 256 + phase, Cut(proto, k * 256)) +
      if phase < i && k * 256 + phase < |proto| then proto[k * 256 + phase] * x(m - k) else 0.0
  {
    if i > 0 {
      Stretch(proto, phase, x, m, k, i - 1);
      StuffedAt(x, m, phase, k, i - 1);
    }
  }

  lemma PlacedAt(proto: seq<real>, phase: nat, k: nat)
    requires phase < 256 && k < 64
    ensures Placed(proto)[phase * 64 + (63 - k)] == Gained(proto, k * 256 + phase)
  {
    Split(k, phase, 256);
    PlaceIsABijection(k * 256 + phase);
  }

  ghost function Tap(proto: seq<real>, n: nat): real { if n < |proto| then proto[n] else 0.0 }

  lemma PhaseTap(proto: seq<real>, phase: nat, k: nat)
    requires phase < 256 && k < 64
    ensures Phase(Placed(proto), phase)[63 - k] == 256.0 * Tap(proto, k * 256 + phase)
  {
    PlacedAt(proto, phase, k);
  }

  lemma DotStep(b: seq<real>, x: Signal, m: int, k: nat, tap: real)
    requires k < TAPS_PER_PHASE == |b| && b[63 - k] == 256.0 * tap
    ensures PhaseDot(b, x, m, k + 1) == PhaseDot(b, x, m, k) + 256.0 * (tap * x(m - k))
  {
    Associate(tap, x(m - k));
  }

  lemma Associate(a: real, b: real)
    ensures 256.0 * a * b == 256.0 * (a * b)
  {
  }

  /** The k-th stored tap of a phase contributes its prototype tap, times the gain. */
  lemma PhaseDotStep(proto: seq<real>, phase: nat, x: Signal, m: int, k: nat)
    requires phase < 256 && k < 64
    ensures PhaseDot(Phase(Placed(proto), phase), x, m, k + 1) ==
      PhaseDot(Phase(Placed(proto), phase), x, m, k) + 256.0 * (Tap(proto, k * 256 + phase) * x(m - k))
  {
    PhaseTap(proto, phase, k);
    DotStep(Phase(Placed(proto), phase), x, m, k, Tap(proto, k * 256 + phase));
  }

  lemma WholeStretch(proto: seq<real>, phase: nat, x: Signal, m: int, k: nat)
    requires phase < 256
    ensures Convolution(proto, x, m * 256 + phase, Cut(proto, k * 256 + 256)) ==
      Convolution(proto, x, m * 256 + phase, Cut(proto, k * 256)) + Tap(proto, k * 256 + phase) * x(m - k)
  {
    Stretch(proto, phase, x, m, k, 256);
  }

  lemma Combine(dot: real, conv: real, tap: real, dot': real, conv': real)
    requires dot == 256.0 * conv && dot' == dot + 256.0 * tap && conv' == conv + tap
    ensures dot' == 256.0 * conv'
  {
  }

  lemma {:induction false} PhaseDotIsConvolution(proto: seq<real>, phase: nat, x: Signal, m: int, taps: nat)
    requires phase < 256 && taps <= 64
    ensures PhaseDot(Phase(Placed(proto), phase), x, m, taps) ==
      256.0 * Convolution(proto, x, m * 256 + phase, Cut(proto, taps * 256))
  {
    if taps > 0 {
      var k := taps - 1;
      PhaseDotIsConvolution(proto, phase, x, m, k);
      PhaseDotStep(proto, phase, x, m, k);
      WholeStretch(proto, phase, x, m, k);
      assert k * 256 + 256 == taps * 256;
      Combine(
        PhaseDot(Phase(Placed(proto), phase), x, m, k), Convolution(proto, x, m * 256 + phase, Cut(proto, k * 256)),
        Tap(proto, k * 256 + phase) * x(m - k),
        PhaseDot(Phase(Placed(proto), phase), x, m, taps), Convolution(proto, x, m * 256 + phase, Cut(proto, taps * 256)));
    }
  }

  /** For a prototype that fits, the 64-tap dot product of a phase is the whole prototype
      applied to the zero-stuffed input, times the gain. */
  lemma PhaseRefinesConvolution(proto: seq<real>, phase: nat, x: Signal, m: int)
    requires |proto| <= TOTAL && phase < 256
    ensures PhaseOutput(Phase(Placed(proto), phase), x, m) == 256.0 * Convolution(proto, x, m * 256 + phase, |proto|)
  {
    PhaseDotIsConvolution(proto, phase, x, m, |Phase(Placed(proto), phase)|);
  }

  /** Dividing a phase divides its dot products. */
  lemma {:induction false} DividedDot(b: seq<real>, d: real, x: Signal, m: int, taps: nat)
    requires taps <= TAPS_PER_PHASE == |b| && d != 0.0
    ensures PhaseDot(Quotients(b, d), x, m, taps) * d == PhaseDot(b, x, m, taps)
  {
    if taps > 0 {
      DividedDot(b, d, x, m, taps - 1);
      Distribute(
        PhaseDot(Quotients(b, d), x, m, taps - 1), b[64 - taps], x(m - (taps - 1)), d, PhaseDot(b, x, m, taps - 1));
    }
  }

  lemma Distribute(divided: real, tap: real, sample: real, d: real, dot: real)
    requires d != 0.0 && divided * d == dot
    ensures (divided + tap / d * sample) * d == dot + tap * sample
  {
    var q := tap / d;
    assert q * d == tap;
    assert q * sample * d == tap * sample;
  }

  /** What normalisation divides by. */
  ghost function Divisor(b: seq<real>): real {
    if Abs(Sum(b)) > 0.000000001 then Sum(b) else 1.0
  }

  lemma NormalisedDot(b: seq<real>, x: Signal, m: int)
    requires |b| == TAPS_PER_PHASE
    ensures PhaseOutput(Normalised(b), x, m) * Divisor(b) == PhaseOutput(b, x, m)
  {
    if Abs(Sum(b)) > 0.000000001 {
      DividedDot(b, Sum(b), x, m, |b|);
    }
  }

  /** What a stored phase computes: the prototype applied to the zero-stuffed input, times
      256, over the phase's sum unless that is nearly zero. */
  lemma StoredPhaseConvolves(proto: seq<real>, phase: nat, x: Signal, m: int)
    requires |proto| <= TOTAL && phase < 256
    ensures PhaseOutput(Normalised(Phase(Placed(proto), phase)), x, m) * Divisor(Phase(Placed(proto), phase)) ==
      256.0 * Convolution(proto, x, m * 256 + phase, |proto|)
  {
    PhaseRefinesConvolution(proto, phase, x, m);
    NormalisedDot(Phase(Placed(proto), phase), x, m);
  }

  // ----- the partition

  /** Every stored phase is the normalised form of its placed coefficients. */
  method PartitionPolyphase(proto: seq<real>) returns (coeffs: array<real>)
    ensures coeffs.Length == TOTAL
    ensures forall phase: nat :: phase < NUM_PHASES ==> Phase(coeffs[..], phase) == Normalised(Phase(Placed(proto), phase))
  {
    coeffs := PlaceAll(proto);
    ghost var placed := Placed(proto);
    for phase := 0 to NUM_PHASES
      invariant forall p: nat :: p < phase ==> Phase(coeffs[..], p) == Normalised(Phase(placed, p))
      invariant forall p: nat :: phase <= p < NUM_PHASES ==> Phase(coeffs[..], p) == Phase(placed, p)
    {
      NormalisePhase(coeffs, phase);
    }
  }

  method PlaceAll(proto: seq<real>) returns (coeffs: array<real>)
    ensures fresh(coeffs) && coeffs[..] == Placed(proto)
  {
    coeffs := new real[TOTAL](_ => 0.0);
    for n := 0 to |proto|
      invariant coeffs[..] == Placed(proto[..n])
    {
      PlaceOne(proto, coeffs, n);
    }
    assert proto[..|proto|] == proto;
  }

  /** Coefficient `n` goes to phase `n % 256`, tap `n / 256`, newest sample last; taps past
      the last one are dropped. */
  method PlaceOne(proto: seq<real>, coeffs: array<real>, n: nat)
    requires n < |proto| && coeffs[..] == Placed(proto[..n])
    modifies coeffs
    ensures coeffs[..] == Placed(proto[..n + 1])
  {
    var phase, tap := n % 256, n / 256;
    if tap < 64 {
      var slot := phase * 64 + (64 - 1 - tap);
      PlacedInSlot(proto, n, phase, tap, slot);
      coeffs[slot] := proto[n] * 256.0;
    } else {
      PlacedOne(proto, n);
    }
  }

  lemma PlacedInSlot(proto: seq<real>, n: nat, phase: nat, tap: nat, slot: nat)
    requires n < |proto| && phase == n % 256 && tap == n / 256 < 64 && slot == phase * 64 + (63 - tap)
    ensures slot < TOTAL && Placed(proto[..n + 1]) == Placed(proto[..n])[slot := 256.0 * proto[n]]
  {
    assert slot == Place(n) && n < TOTAL;
    PlacedOne(proto, n);
  }

  method NormalisePhase(coeffs: array<real>, phase: nat)
    requires coeffs.Length == TOTAL && phase < NUM_PHASES
    modifies coeffs
    ensures Phase(coeffs[..], phase) == Normalised(old(Phase(coeffs[..], phase)))
    ensures forall p: nat :: p < NUM_PHASES && p != phase ==> Phase(coeffs[..], p) == old(Phase(coeffs[..], p))
  {
    ghost var before := Phase(coeffs[..], phase);
    var start := phase * 64;
    var sum := 0.0;
    for tap := 0 to 64
      invariant sum == Sum(before[..tap])
    {
      assert before[..tap + 1][..tap] == before[..tap];
      sum := sum + coeffs[start + tap];
    }
    assert before[..64] == before;
    if Abs(sum) > 0.000000001 {
      DivideAll(coeffs, start, sum);
      assert Phase(coeffs[..], phase) == Quotients(before, sum);
    }
  }

  method DivideAll(coeffs: array<real>, start: nat, sum: real)
    requires start + 64 <= coeffs.Length && sum != 0.0
    modifies coeffs
    ensures forall k :: start <= k < start + 64 ==> coeffs[k] == old(coeffs[k]) / sum
    ensures forall k :: 0 <= k < coeffs.Length && !(start <= k < start + 64) ==> coeffs[k] == old(coeffs[k])
  {
    for tap := 0 to 64
      invariant forall k :: start <= k < start + tap ==> coeffs[k] == old(coeffs[k]) / sum
      invariant forall k :: 0 <= k < coeffs.Length && !(start <= k < start + tap) ==> coeffs[k] == old(coeffs[k])
    {
      coeffs[start + tap] := coeffs[start + tap] / sum;
    }
  }
}
