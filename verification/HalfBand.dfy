/** The 25-tap half-band filter: its coefficient layout (odd taps only, stored
    in reverse), the full kernel that layout stands for, and the short dot
    products that replace the 25-tap convolution on zero-stuffed or decimated
    streams. */
module HalfBand {
  import opened Basics
  import opened Signals

  const HB_TAPS: nat := 25
  const HB_DELAY: nat := 12  // HB_TAPS / 2
  const HB_ODD_COUNT: nat := 12  // HB_TAPS / 2

  datatype Filter = Filter(coeffs: seq<real>, center: real) {
    predicate Valid() {
      |coeffs| == HB_ODD_COUNT
    }

    /** The impulse response the stored coefficients stand for: `center` at the
        middle, zero at every other even tap, and the odd taps in reverse order. */
    ghost function Kernel(): (h: seq<real>)
      requires Valid()
    {
      seq(HB_TAPS, (i: int) requires 0 <= i < HB_TAPS =>
        if i == HB_DELAY then center else if i % 2 == 1 then coeffs[(HB_TAPS - 2 - i) / 2] else 0.0)
    }
  }

  /** The first `k` products of the multiply-accumulate over the odd taps. */
  function Dot(c: seq<real>, w: seq<real>, k: nat): real
    requires k <= |c| && k <= |w|
  {
    if k == 0 then 0.0 else Dot(c, w, k - 1) + c[k - 1] * w[k - 1]
  }

  // ----- the short forms compute the full convolution

  /** Only the even taps meet a non-zero sample at even times, and only the centre
      one of those is non-zero. */
  lemma {:induction false} StuffedEvenFrom(f: Filter, x: Signal, t: int, i: nat)
    requires f.Valid() && i <= HB_TAPS
    ensures FirFrom(f.Kernel(), Stuff(x), 2 * t, i) == if i <= HB_DELAY then f.center * x(t - 6) else 0.0
    decreases HB_TAPS - i
  {
    if i < HB_TAPS {
      StuffedEvenFrom(f, x, t, i + 1);
      if i == HB_DELAY {
        assert (2 * t - i) % 2 == 0 && (2 * t - i) / 2 == t - 6;
      } else if i % 2 == 1 {
        assert (2 * t - i) % 2 == 1;
      }
    }
  }

  /** Taps `24 - 2k` and `25 - 2k` of a convolution `fir`, summed from the far end, add one
      product of the short form; the centre tap adds `mid`. */
  ghost predicate StepsAt(fir: int -> real, c: seq<real>, w: seq<real>, mid: real, k: nat)
    requires 0 < k <= HB_ODD_COUNT == |c| == |w|
  {
    fir(24 - 2 * k) == c[k - 1] * w[k - 1] + fir(26 - 2 * k) + if 2 * k == HB_DELAY then mid else 0.0
  }

  lemma {:induction false} Telescope(fir: int -> real, c: seq<real>, w: seq<real>, mid: real, k: nat)
    requires k <= HB_ODD_COUNT == |c| == |w| && fir(24) == 0.0
    requires forall j: nat :: 0 < j <= HB_ODD_COUNT ==> StepsAt(fir, c, w, mid, j)
    ensures fir(24 - 2 * k) == Dot(c, w, k) + if 2 * k >= HB_DELAY then mid else 0.0
  {
    if k > 0 {
      Telescope(fir, c, w, mid, k - 1);
      assert StepsAt(fir, c, w, mid, k);
    }
  }

  /** At odd times an even tap meets a stuffed zero ... */
  lemma StuffedEvenTap(h: seq<real>, x: Signal, t: int, i: nat)
    requires i < |h| && i % 2 == 0
    ensures FirFrom(h, Stuff(x), 2 * t + 1, i) == FirFrom(h, Stuff(x), 2 * t + 1, i + 1)
  {
    assert (2 * t + 1 - i) % 2 == 1;
  }

  /** ... and an odd one a sample. */
  lemma StuffedOddTap(f: Filter, x: Signal, t: int, k: nat)
    requires f.Valid() && 0 < k <= HB_ODD_COUNT
    ensures FirFrom(f.Kernel(), Stuff(x), 2 * t + 1, HB_TAPS - 2 * k) ==
            f.coeffs[k - 1] * x(t - 12 + k) + FirFrom(f.Kernel(), Stuff(x), 2 * t + 1, HB_TAPS + 1 - 2 * k)
  {
    var i := HB_TAPS - 2 * k;
    assert f.Kernel()[i] == f.coeffs[k - 1];
    assert (2 * t + 1 - i) % 2 == 0 && (2 * t + 1 - i) / 2 == t - 12 + k;
    assert Stuff(x)(2 * t + 1 - i) == x(t - 12 + k);
  }

  /** `fir(i)` is the convolution of `x` with `h`, taps from `i` on, at time `n`. */
  ghost predicate IsFir(fir: int -> real, h: seq<real>, x: Signal, n: int) {
    forall i :: 0 <= i <= |h| ==> fir(i) == FirFrom(h, x, n, i)
  }

  ghost function FirOf(h: seq<real>, x: Signal, n: int): (fir: int -> real)
    ensures IsFir(fir, h, x, n)
  {
    (i: int) => if 0 <= i <= |h| then FirFrom(h, x, n, i) else 0.0
  }

  lemma StuffedStep(fir: int -> real, f: Filter, x: Signal, w: seq<real>, t: int, k: nat)
    requires f.Valid() && 0 < k <= HB_ODD_COUNT == |w| && IsFir(fir, f.Kernel(), Stuff(x), 2 * t + 1)
    requires w[k - 1] == x(t - 12 + k)
    ensures StepsAt(fir, f.coeffs, w, 0.0, k)
  {
    StuffedEvenTap(f.Kernel(), x, t, HB_TAPS - 1 - 2 * k);
    StuffedOddTap(f, x, t, k);
  }

  lemma StuffedOdd(f: Filter, x: Signal, w: seq<real>, t: int)
    requires f.Valid() && |w| == HB_ODD_COUNT
    requires forall j :: 0 <= j < HB_ODD_COUNT ==> w[j] == x(t - 11 + j)
    ensures FirFrom(f.Kernel(), Stuff(x), 2 * t + 1, 0) == Dot(f.coeffs, w, HB_ODD_COUNT)
  {
    var fir := FirOf(f.Kernel(), Stuff(x), 2 * t + 1);
    StuffedEvenTap(f.Kernel(), x, t, HB_TAPS - 1);
    forall k: nat | 0 < k <= HB_ODD_COUNT ensures StepsAt(fir, f.coeffs, w, 0.0, k) {
      StuffedStep(fir, f, x, w, t, k);
    }
    Telescope(fir, f.coeffs, w, 0.0, HB_ODD_COUNT);
  }

  /** Upsampling: both phases of the zero-stuffed convolution at native time `t`. What is
      left at odd times is the dot product of the stored coefficients with the last twelve
      samples. */
  lemma StuffedFir(f: Filter, x: Signal, w: seq<real>, t: int)
    requires f.Valid() && |w| == HB_ODD_COUNT
    requires forall j :: 0 <= j < HB_ODD_COUNT ==> w[j] == x(t - 11 + j)
    ensures Fir(f.Kernel(), Stuff(x))(2 * t) == w[5] * f.center
    ensures Fir(f.Kernel(), Stuff(x))(2 * t + 1) == Dot(f.coeffs, w, HB_ODD_COUNT)
  {
    StuffedEvenFrom(f, x, t, 0);
    StuffedOdd(f, x, w, t);
  }

  lemma EvenTap(f: Filter, x: Signal, m: int, i: nat)
    requires f.Valid() && i < HB_TAPS && i % 2 == 0
    ensures FirFrom(f.Kernel(), x, 2 * m, i) == FirFrom(f.Kernel(), x, 2 * m, i + 1)
                                                + if i == HB_DELAY then x(2 * m - HB_DELAY) * f.center else 0.0
  {
    if i != HB_DELAY {
      assert f.Kernel()[i] == 0.0;
    }
  }

  lemma OddTap(f: Filter, x: Signal, w: seq<real>, m: int, k: nat)
    requires f.Valid() && 0 < k <= HB_ODD_COUNT == |w|
    requires w[k - 1] == x(2 * (m - 12 + (k - 1)) + 1)
    ensures FirFrom(f.Kernel(), x, 2 * m, HB_TAPS - 2 * k) ==
            f.coeffs[k - 1] * w[k - 1] + FirFrom(f.Kernel(), x, 2 * m, HB_TAPS + 1 - 2 * k)
  {
    var i := HB_TAPS - 2 * k;
    assert f.Kernel()[i] == f.coeffs[k - 1];
    assert 2 * m - i == 2 * (m - 12 + (k - 1)) + 1;
  }

  /** Decimation: output `m` from the centre sample and the last twelve odd-phase samples. */
  lemma DecimatedFir(f: Filter, x: Signal, w: seq<real>, m: int)
    requires f.Valid() && |w| == HB_ODD_COUNT
    requires forall j :: 0 <= j < HB_ODD_COUNT ==> w[j] == x(2 * (m - 12 + j) + 1)
    ensures Fir(f.Kernel(), x)(2 * m) == x(2 * m - HB_DELAY) * f.center + Dot(f.coeffs, w, HB_ODD_COUNT)
  {
    var mid, fir := x(2 * m - HB_DELAY) * f.center, FirOf(f.Kernel(), x, 2 * m);
    EvenTap(f, x, m, HB_TAPS - 1);
    forall k: nat | 0 < k <= HB_ODD_COUNT ensures StepsAt(fir, f.coeffs, w, mid, k) {
      DecimatedStep(fir, f, x, w, m, k);
    }
    Telescope(fir, f.coeffs, w, mid, HB_ODD_COUNT);
  }

  lemma DecimatedStep(fir: int -> real, f: Filter, x: Signal, w: seq<real>, m: int, k: nat)
    requires f.Valid() && 0 < k <= HB_ODD_COUNT == |w| && IsFir(fir, f.Kernel(), x, 2 * m)
    requires w[k - 1] == x(2 * (m - 12 + (k - 1)) + 1)
    ensures StepsAt(fir, f.coeffs, w, x(2 * m - HB_DELAY) * f.center, k)
  {
    EvenTap(f, x, m, HB_TAPS - 1 - 2 * k);
    OddTap(f, x, w, m, k);
  }

  // ----- filter design: what the layout and the gain normalisation guarantee

  function Sum(s: seq<real>, k: nat): real
    requires k <= |s|
  {
    if k == 0 then 0.0 else Sum(s, k - 1) + s[k - 1]
  }

  function OddTaps(taps: seq<real>): (odd: seq<real>)
    requires |taps| == HB_TAPS
  {
    seq(HB_ODD_COUNT, (k: int) requires 0 <= k < HB_ODD_COUNT => taps[2 * k + 1])
  }

  const NEGLIGIBLE_SUM: real := 0.0000000001

  function DesignScale(odd: seq<real>, dcGain: real): real
    requires |odd| == HB_ODD_COUNT
  {
    var oddSum := Sum(odd, HB_ODD_COUNT);
    if Abs(oddSum) > NEGLIGIBLE_SUM then (dcGain - dcGain / 2.0) / oddSum else 1.0
  }

  /** Lays out the odd taps of a windowed-sinc prototype (`taps`, one value per
      tap), rescales them to carry half the DC gain, and reverses them. */
  method Design(taps: seq<real>, dcGain: real) returns (f: Filter)
    requires |taps| == HB_TAPS
    ensures IsDesigned(f, taps, dcGain)
  {
    var coeffs := LayOut(taps);
    Rescale(coeffs, dcGain);
    ghost var scaled := coeffs[..];
    Reverse(coeffs);
    f := Filter(coeffs[..], dcGain / 2.0);
    ReversedIsDesigned(taps, scaled, dcGain, f);
  }

  lemma ReversedIsDesigned(taps: seq<real>, scaled: seq<real>, dcGain: real, f: Filter)
    requires |taps| == HB_TAPS && |scaled| == HB_ODD_COUNT && f.Valid() && f.center == dcGain / 2.0
    requires forall k :: 0 <= k < HB_ODD_COUNT ==> scaled[k] == OddTaps(taps)[k] * DesignScale(OddTaps(taps), dcGain)
    requires forall k :: 0 <= k < HB_ODD_COUNT ==> f.coeffs[k] == scaled[HB_ODD_COUNT - 1 - k]
    ensures IsDesigned(f, taps, dcGain)
  {
    forall k | 0 <= k < HB_ODD_COUNT ensures f.coeffs[k] == taps[HB_TAPS - 2 - 2 * k] * DesignScale(OddTaps(taps), dcGain) {
      var j := HB_ODD_COUNT - 1 - k;
      assert OddTaps(taps)[j] == taps[2 * j + 1];
      assert 2 * j + 1 == HB_TAPS - 2 - 2 * k;
    }
  }

  /** Stores the odd taps, skipping every tap an even distance from the centre. */
  method LayOut(taps: seq<real>) returns (coeffs: array<real>)
    requires |taps| == HB_TAPS
    ensures fresh(coeffs) && coeffs[..] == OddTaps(taps)
  {
    coeffs := new real[HB_ODD_COUNT](_ => 0.0);
    for i := 0 to HB_TAPS
      invariant forall k :: 0 <= k < i / 2 ==> coeffs[k] == taps[2 * k + 1]
    {
      var offset: int := i - HB_DELAY;
      if offset % 2 != 0 && i % 2 == 1 {
        coeffs[i / 2] := taps[i];
      }
    }
  }

  /** Normalises the odd taps so that, with the centre tap, they sum to the DC gain. */
  method Rescale(coeffs: array<real>, dcGain: real)
    requires coeffs.Length == HB_ODD_COUNT
    modifies coeffs
    ensures forall k :: 0 <= k < HB_ODD_COUNT ==> coeffs[k] == old(coeffs[k]) * DesignScale(old(coeffs[..]), dcGain)
  {
    var oddSum := Sum(coeffs[..], HB_ODD_COUNT);
    if Abs(oddSum) > NEGLIGIBLE_SUM {
      var scale := (dcGain - dcGain / 2.0) / oddSum;
      for i := 0 to HB_ODD_COUNT
        invariant forall k :: 0 <= k < i ==> coeffs[k] == old(coeffs[k]) * scale
        invariant forall k :: i <= k < HB_ODD_COUNT ==> coeffs[k] == old(coeffs[k])
      {
        coeffs[i] := coeffs[i] * scale;
      }
    }
  }

  method Reverse(a: array<real>)
    modifies a
    ensures forall k :: 0 <= k < a.Length ==> a[k] == old(a[a.Length - 1 - k])
  {
    for i := 0 to a.Length / 2
      invariant forall k :: 0 <= k < i ==> a[k] == old(a[a.Length - 1 - k]) && a[a.Length - 1 - k] == old(a[k])
      invariant forall k :: i <= k < a.Length - i ==> a[k] == old(a[k])
    {
      a[i], a[a.Length - 1 - i] := a[a.Length - 1 - i], a[i];
    }
  }

  /** The coefficients `Design` leaves behind. */
  ghost predicate IsDesigned(f: Filter, taps: seq<real>, dcGain: real) {
    && |taps| == HB_TAPS && f.Valid() && f.center == dcGain / 2.0
    && forall k :: 0 <= k < HB_ODD_COUNT ==> f.coeffs[k] == taps[HB_TAPS - 2 - 2 * k] * DesignScale(OddTaps(taps), dcGain)
  }

  /** Undoing the reversal: odd tap `i` of the kernel is the scaled prototype tap `i`. */
  lemma DesignedTap(taps: seq<real>, dcGain: real, f: Filter, i: nat)
    requires IsDesigned(f, taps, dcGain)
    requires i < HB_TAPS && i % 2 == 1
    ensures f.Kernel()[i] == taps[i] * DesignScale(OddTaps(taps), dcGain)
  {
    var k := (HB_TAPS - 2 - i) / 2;
    assert HB_TAPS - 2 - 2 * k == i;
    assert f.coeffs[k] == taps[i] * DesignScale(OddTaps(taps), dcGain);
  }

  /** The centre tap is half the DC gain; the odd taps share the other half in the
      prototype's proportions, or are left alone if they nearly cancel. */
  lemma DesignedExactly(taps: seq<real>, dcGain: real, f: Filter, i: nat)
    requires IsDesigned(f, taps, dcGain)
    requires i < HB_TAPS && i % 2 == 1
    ensures f.Kernel()[12] == dcGain / 2.0
    ensures var sum := Sum(OddTaps(taps), HB_ODD_COUNT);
      if Abs(sum) > 0.0000000001 then f.Kernel()[i] * sum == taps[i] * (dcGain / 2.0) else f.Kernel()[i] == taps[i]
  {
    DesignedTap(taps, dcGain, f, i);
    var sum := Sum(OddTaps(taps), HB_ODD_COUNT);
    if Abs(sum) > 0.0000000001 {
      ScaleBack(taps[i], dcGain - dcGain / 2.0, sum);
    }
  }

  lemma ScaleBack(tap: real, share: real, sum: real)
    requires sum != 0.0
    ensures tap * (share / sum) * sum == tap * share
  {
    assert share / sum * sum == share;
  }

  /** A symmetric prototype yields a linear-phase kernel. */
  lemma DesignedIsLinearPhase(taps: seq<real>, dcGain: real, f: Filter)
    requires IsDesigned(f, taps, dcGain)
    requires Palindromic(taps)
    ensures Palindromic(f.Kernel())
  {
    var h := f.Kernel();
    forall i | 0 <= i < |h| ensures h[i] == h[|h| - 1 - i] {
      if i % 2 == 1 {
        DesignedMirror(taps, dcGain, f, i);
      }
    }
  }

  lemma DesignedMirror(taps: seq<real>, dcGain: real, f: Filter, i: nat)
    requires IsDesigned(f, taps, dcGain) && Palindromic(taps)
    requires i < HB_TAPS && i % 2 == 1
    ensures f.Kernel()[i] == f.Kernel()[HB_TAPS - 1 - i]
  {
    DesignedTap(taps, dcGain, f, i);
    DesignedTap(taps, dcGain, f, HB_TAPS - 1 - i);
    assert taps[i] == taps[HB_TAPS - 1 - i];
  }

  /** The 25 taps of a designed kernel add up to the requested DC gain. */
  lemma DesignedGain(taps: seq<real>, dcGain: real, f: Filter)
    requires IsDesigned(f, taps, dcGain)
    requires Abs(Sum(OddTaps(taps), HB_ODD_COUNT)) > 0.0000000001
    ensures Sum(f.Kernel(), HB_TAPS) == dcGain
  {
    var odd, h := OddTaps(taps), f.Kernel();
    var scale := DesignScale(odd, dcGain);
    forall j | 0 <= j < HB_ODD_COUNT
      ensures h[2 * j + 1] == Times(odd[j], scale)
    {
      DesignedTap(taps, dcGain, f, 2 * j + 1);
    }
    KernelSum(f, odd, scale, HB_ODD_COUNT);
    DivideBack(dcGain - dcGain / 2.0, Sum(odd, HB_ODD_COUNT));
    assert Sum(h, HB_TAPS) == Sum(h, HB_TAPS - 1) + h[HB_TAPS - 1];
  }

  ghost function Times(x: real, y: real): real { x * y }

  lemma DivideBack(x: real, y: real)
    requires y != 0.0
    ensures Times(y, x / y) == x
  {
  }

  lemma TimesDistributes(x: real, y: real, z: real)
    ensures Times(x + y, z) == Times(x, z) + Times(y, z)
  {
  }

  lemma {:induction false} KernelSum(f: Filter, odd: seq<real>, scale: real, k: nat)
    requires f.Valid() && k <= HB_ODD_COUNT == |odd|
    requires forall j {:trigger odd[j]} :: 0 <= j < HB_ODD_COUNT ==> f.Kernel()[2 * j + 1] == Times(odd[j], scale)
    ensures Sum(f.Kernel(), 2 * k) == Times(Sum(odd, k), scale) + if 2 * k > HB_DELAY then f.center else 0.0
  {
    if k > 0 {
      KernelSum(f, odd, scale, k - 1);
      TimesDistributes(Sum(odd, k - 1), odd[k - 1], scale);
      KernelSumStep(f, k);
      assert f.Kernel()[2 * (k - 1) + 1] == Times(odd[k - 1], scale);
    }
  }

  lemma KernelSumStep(f: Filter, k: nat)
    requires f.Valid() && 0 < k <= HB_ODD_COUNT
    ensures Sum(f.Kernel(), 2 * k) == Sum(f.Kernel(), 2 * (k - 1)) + f.Kernel()[2 * (k - 1) + 1]
                                      + if 2 * (k - 1) == HB_DELAY then f.center else 0.0
  {
    var h := f.Kernel();
    assert Sum(h, 2 * k) == Sum(h, 2 * k - 1) + h[2 * k - 1];
    assert Sum(h, 2 * k - 1) == Sum(h, 2 * k - 2) + h[2 * k - 2];
  }
}
