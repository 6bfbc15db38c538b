/** Discrete-time signals over all of time, and the three linear operators a
    half-band resampler is made of: FIR filtering, zero-stuffing and decimation.
    This is the vocabulary in which the fast, stateful oversampler is specified. */
module Signals {

  type Signal = int -> real

  /** The signal seen by a filter at rest before its first sample: silence, then `xs`. */
  ghost function Past(xs: seq<real>): Signal {
    (k: int) => if 0 <= k < |xs| then xs[k] else 0.0
  }

  /** The taps `i..` of the convolution of `x` with `h` at time `n`. */
  ghost function FirFrom(h: seq<real>, x: Signal, n: int, i: nat): real
    requires i <= |h|
    decreases |h| - i
  {
    if i == |h| then 0.0 else h[i] * x(n - i) + FirFrom(h, x, n, i + 1)
  }

  /** Convolution: the sum over every tap `i` of `h[i] * x(n - i)`. */
  ghost function Fir(h: seq<real>, x: Signal): Signal {
    (n: int) => FirFrom(h, x, n, 0)
  }

  /** Inserts a zero after every sample. */
  ghost function Stuff(x: Signal): Signal {
    (n: int) => if n % 2 == 0 then x(n / 2) else 0.0
  }

  /** Keeps every other sample. */
  ghost function Decimate(x: Signal): Signal {
    (m: int) => x(2 * m)
  }

  /** Reflection of time about `c / 2`. */
  ghost function Reflect(x: Signal, c: int): Signal {
    (n: int) => x(c - n)
  }

  ghost predicate Same(x: Signal, y: Signal) {
    forall n: int {:trigger y(n)} :: x(n) == y(n)
  }

  /** A kernel that reads the same in both directions: linear phase. */
  ghost predicate Palindromic(h: seq<real>) {
    forall i :: 0 <= i < |h| ==> h[i] == h[|h| - 1 - i]
  }

  // ----- causality: a filter output depends only on the samples its taps reach

  lemma {:induction false} FirFromAgrees(h: seq<real>, x: Signal, y: Signal, n: int, i: nat)
    requires i <= |h|
    requires forall k :: n - |h| < k <= n - i ==> x(k) == y(k)
    ensures FirFrom(h, x, n, i) == FirFrom(h, y, n, i)
    decreases |h| - i
  {
    if i < |h| {
      FirFromAgrees(h, x, y, n, i + 1);
    }
  }

  lemma FirAgrees(h: seq<real>, x: Signal, y: Signal, n: int)
    requires forall k :: n - |h| < k <= n ==> x(k) == y(k)
    ensures Fir(h, x)(n) == Fir(h, y)(n)
  {
    FirFromAgrees(h, x, y, n, 0);
  }

  /** Two signals with the same past up to (not including) time `n`. */
  ghost predicate AgreeBefore(x: Signal, y: Signal, n: int) {
    forall k: int :: k < n ==> x(k) == y(k)
  }

  ghost predicate SilentBeforeZero(x: Signal) {
    forall k: int :: k < 0 ==> x(k) == 0.0
  }

  lemma FirAgreeBefore(h: seq<real>, x: Signal, y: Signal, n: int)
    requires AgreeBefore(x, y, n)
    ensures AgreeBefore(Fir(h, x), Fir(h, y), n)
  {
    forall k: int | k < n ensures Fir(h, x)(k) == Fir(h, y)(k) { FirAgrees(h, x, y, k); }
  }

  lemma {:induction false} FirOfSilence(h: seq<real>, n: int, i: nat)
    requires i <= |h|
    ensures FirFrom(h, Past([]), n, i) == 0.0
    decreases |h| - i
  {
    if i < |h| {
      FirOfSilence(h, n, i + 1);
    }
  }

  /** A filter at rest stays at rest until its input begins. */
  lemma FirSilent(h: seq<real>, x: Signal)
    requires SilentBeforeZero(x)
    ensures SilentBeforeZero(Fir(h, x))
  {
    forall k: int | k < 0 ensures Fir(h, x)(k) == 0.0 {
      FirAgrees(h, x, Past([]), k);
      FirOfSilence(h, k, 0);
    }
  }

  // ----- time reversal

  /** The taps before `i`. */
  ghost function FirUpTo(h: seq<real>, x: Signal, n: int, i: nat): real
    requires i <= |h|
  {
    if i == 0 then 0.0 else FirUpTo(h, x, n, i - 1) + h[i - 1] * x(n - (i - 1))
  }

  lemma {:induction false} FirSplit(h: seq<real>, x: Signal, n: int, i: nat)
    requires i <= |h|
    ensures FirFrom(h, x, n, 0) == FirUpTo(h, x, n, i) + FirFrom(h, x, n, i)
  {
    if i > 0 {
      FirSplit(h, x, n, i - 1);
    }
  }

  /** Reading a palindromic kernel backwards pairs tap `i` with tap `|h| - 1 - i`. */
  lemma {:induction false} FirFromReflected(h: seq<real>, x: Signal, c: int, n: int, i: nat)
    requires Palindromic(h)
    requires i <= |h|
    ensures FirFrom(h, Reflect(x, c), n, |h| - i) == FirUpTo(h, x, c + |h| - 1 - n, i)
  {
    if i > 0 {
      FirFromReflected(h, x, c, n, i - 1);
      var t := |h| - i;
      assert h[t] == h[i - 1];
      assert c - (n - t) == (c + |h| - 1 - n) - (i - 1);
    }
  }

  /** A linear-phase FIR turns a reflected input into a reflected output, and the
      axis of reflection moves by exactly `(|h| - 1) / 2` samples. */
  lemma FirReflect(h: seq<real>, x: Signal, c: int)
    requires Palindromic(h)
    ensures Same(Fir(h, Reflect(x, c)), Reflect(Fir(h, x), c + |h| - 1))
  {
    forall n: int
      ensures Fir(h, Reflect(x, c))(n) == Reflect(Fir(h, x), c + |h| - 1)(n)
    {
      FirFromReflected(h, x, c, n, |h|);
      FirSplit(h, x, c + |h| - 1 - n, |h|);
    }
  }

  lemma FirSame(h: seq<real>, x: Signal, y: Signal)
    requires Same(x, y)
    ensures Same(Fir(h, x), Fir(h, y))
  {
    forall n: int ensures Fir(h, x)(n) == Fir(h, y)(n) { FirAgrees(h, x, y, n); }
  }

  lemma StuffReflect(x: Signal, c: int)
    ensures Same(Stuff(Reflect(x, c)), Reflect(Stuff(x), 2 * c))
  {
    forall n: int ensures Stuff(Reflect(x, c))(n) == Reflect(Stuff(x), 2 * c)(n) {
      if n % 2 == 0 {
        assert (2 * c - n) % 2 == 0 && (2 * c - n) / 2 == c - n / 2;
      } else {
        assert (2 * c - n) % 2 == 1;
      }
    }
  }

  lemma DecimateReflect(x: Signal, c: int)
    ensures Same(Decimate(Reflect(x, 2 * c)), Reflect(Decimate(x), c))
  {
    forall m: int ensures Decimate(Reflect(x, 2 * c))(m) == Reflect(Decimate(x), c)(m) {
      assert 2 * c - 2 * m == 2 * (c - m);
    }
  }
}
