/** Timing of a linear crossfade: its length in samples and how far it has come. */
module Crossfade {
  import opened Basics

  const CROSSFADE_SECONDS: real := 0.032

  /** Rounding half up, for non-negative values. */
  function Round(x: real): (n: nat)
    requires x >= 0.0
    ensures n as real - 0.5 <= x < n as real + 0.5
  {
    (x + 0.5).Floor
  }

  function CrossfadeSamples(sampleRate: nat): (n: nat)
    ensures n >= 1
  {
    Max(Round(CROSSFADE_SECONDS * sampleRate as real), 1)
  }

  /** 32 ms of samples, rounded, and at least one. */
  lemma CrossfadeLength(sampleRate: nat)
    ensures var n := CrossfadeSamples(sampleRate);
      if sampleRate < 16 then n == 1 else n as real - 0.5 <= 0.032 * sampleRate as real < n as real + 0.5
  {
  }

  function Progress(elapsed: nat, total: nat): (p: real)
    requires total > 0
    ensures 0.0 <= p <= 1.0
  {
    var p := elapsed as real / total as real;
    if p > 1.0 then 1.0 else p
  }

  /** A larger part of the fade done means at least as much gain. */
  lemma ProgressMonotone(a: nat, b: nat, total: nat)
    requires a <= b && 0 < total
    ensures Progress(a, total) <= Progress(b, total)
  {
    QuotientMonotone(a as real, b as real, total as real);
  }

  // ----- a fade that may be re-targeted while it runs

  datatype Phase = Idle | Active

  datatype Fade = Fade(phase: Phase, total: nat, elapsed: nat) {
    predicate Valid() {
      phase == Active ==> 0 < total && elapsed <= total
    }
  }

  /** The position of a running crossfade on a new duration: progress is kept to
      half a sample, and kept exactly when the duration is the same. */
  function Rebased(elapsed: nat, total: nat, newTotal: nat): (e: nat)
    requires 0 < total && elapsed <= total && newTotal > 0
    ensures e <= newTotal
    ensures newTotal == total ==> e == elapsed
    ensures e as real - 0.5 <= Progress(elapsed, total) * newTotal as real < e as real + 0.5
  {
    RebaseKeepsProgress(elapsed, total, newTotal);
    Round(Progress(elapsed, total) * newTotal as real)
  }

  lemma RebaseKeepsProgress(elapsed: nat, total: nat, newTotal: nat)
    requires 0 < total && elapsed <= total && newTotal > 0
    ensures 0.0 <= Progress(elapsed, total) * newTotal as real <= newTotal as real
    ensures newTotal == total ==> Progress(elapsed, total) * newTotal as real == elapsed as real
  {
    var p := Progress(elapsed, total);
    QuotientMonotone(elapsed as real, total as real, total as real);
    RealProductMonotone(p, 1.0, newTotal as real);
  }

  /** A new target starts a fade, or takes over the running one at its position. */
  function Retarget(f: Fade, newTotal: nat): (g: Fade)
    requires f.Valid() && newTotal > 0
    ensures g.Valid() && g.phase == Active && g.total == newTotal
    ensures f.phase == Active && f.total == newTotal ==> g == f
  {
    Fade(Active, newTotal, if f.phase == Active then Rebased(f.elapsed, f.total, newTotal) else 0)
  }

  /** `n` samples pass. */
  function Advance(f: Fade, n: nat): (g: Fade)
    requires f.Valid()
    ensures g.Valid()
  {
    if f.phase == Idle then f
    else if f.elapsed + n >= f.total then Fade(Idle, f.total, 0)
    else f.(elapsed := f.elapsed + n)
  }

  /** The gain a running fade reports for the `n` samples it is about to pass. */
  function Gain(f: Fade, n: nat): (g: real)
    requires f.Valid() && f.phase == Active
    ensures 0.0 <= g <= 1.0
  {
    if f.elapsed + n >= f.total then 1.0 else Progress(f.elapsed, f.total)
  }

  ghost function Total(ns: seq<nat>): nat {
    if ns == [] then 0 else Total(ns[..|ns| - 1]) + ns[|ns| - 1]
  }

  /** The fade after samples have passed in these portions. */
  ghost function Passed(f: Fade, ns: seq<nat>): (g: Fade)
    requires f.Valid()
    ensures g.Valid()
  {
    if ns == [] then f else Advance(Passed(f, ns[..|ns| - 1]), ns[|ns| - 1])
  }

  /** A running fade is over exactly when its remaining samples have passed, and until
      then its position is the number that have. */
  lemma {:induction false} FadeRunsItsCourse(f: Fade, ns: seq<nat>)
    requires f.Valid() && f.phase == Active && ns != []
    ensures if f.elapsed + Total(ns) >= f.total then Passed(f, ns).phase == Idle
            else Passed(f, ns) == f.(elapsed := f.elapsed + Total(ns))
  {
    var init := ns[..|ns| - 1];
    if init == [] {
      assert Total(ns) == ns[|ns| - 1] && Passed(f, init) == f;
    } else {
      FadeRunsItsCourse(f, init);
    }
  }

  /** It reports the fraction of its samples that have passed, and full gain at its end. */
  lemma FadeReportsProgress(f: Fade, n: nat)
    requires f.Valid() && f.phase == Active
    ensures if f.elapsed + n >= f.total then Gain(f, n) == 1.0 else Gain(f, n) * f.total as real == f.elapsed as real
  {
    QuotientMonotone(f.elapsed as real, f.total as real, f.total as real);
  }

  /** A fade that starts, starts at its beginning, with no gain unless it is over at once. */
  lemma FreshFadeStartsAtZero(f: Fade, newTotal: nat, n: nat)
    requires f.Valid() && f.phase == Idle && n < newTotal
    ensures Retarget(f, newTotal) == Fade(Active, newTotal, 0) && Gain(Retarget(f, newTotal), n) == 0.0
  {
  }

  datatype Call = Heard(n: nat) | Retargeted

  /** A run of calls, all at one sample rate. */
  ghost function After(f: Fade, cs: seq<Call>, total: nat): (g: Fade)
    requires f.Valid() && total > 0
    ensures g.Valid()
  {
    if cs == [] then f
    else
      var g := After(f, cs[..|cs| - 1], total);
      match cs[|cs| - 1]
      case Heard(n) => Advance(g, n)
      case Retargeted => Retarget(g, total)
  }

  /** The fade is running before every call. */
  ghost predicate Running(f: Fade, cs: seq<Call>, total: nat)
    requires f.Valid() && total > 0
  {
    forall k :: 0 <= k < |cs| ==> After(f, cs[..k], total).phase == Active
  }

  lemma {:induction false} ElapsedGrows(f: Fade, cs: seq<Call>, total: nat, i: nat, j: nat)
    requires f.Valid() && f.total == total > 0 && Running(f, cs, total) && i <= j < |cs|
    ensures After(f, cs[..j], total).total == total
    ensures After(f, cs[..i], total).elapsed <= After(f, cs[..j], total).elapsed
    decreases j
  {
    if j > 0 {
      ElapsedGrows(f, cs, total, if i < j then i else j - 1, j - 1);
      assert cs[..j][..j - 1] == cs[..j - 1];
      assert After(f, cs[..j], total).phase == Active;
    }
  }

  /** Through a whole fade, whatever the blocks and however often it is re-targeted at
      one sample rate, the reported gain never decreases. */
  lemma FadeNeverFallsBack(f: Fade, cs: seq<Call>, total: nat, i: nat, j: nat)
    requires f.Valid() && f.total == total > 0 && Running(f, cs, total)
    requires i <= j < |cs| && cs[i].Heard? && cs[j].Heard?
    ensures Gain(After(f, cs[..i], total), cs[i].n) <= Gain(After(f, cs[..j], total), cs[j].n)
  {
    if i < j {
      ElapsedGrows(f, cs, total, i, j);
      ElapsedGrows(f, cs, total, i, i);
      assert cs[..i + 1][..i] == cs[..i];
      assert After(f, cs[..i + 1], total).phase == Active;
      ProgressMonotone(After(f, cs[..i], total).elapsed, After(f, cs[..j], total).elapsed, total);
    }
  }
}
