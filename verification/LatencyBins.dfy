/** The log-linear bin layout: 32 octaves of 8 sub-bins, indexed by the leading
    bit and the three bits after it. */
module LatencyBins {
  import opened Basics

  const SUB_COUNT: nat := 8
  const BIN_COUNT: nat := 256
  const U64_LIMIT: nat := 0x1_0000_0000_0000_0000

  /** Values from here on wrap around inside the top octave. */
  const FAITHFUL_LIMIT: nat := 0x1_0000_0000
  const TOP_OCTAVE: nat := 0x8000_0000

  /** Position of the most significant set bit. */
  function Msb(v: nat): (m: nat)
    requires v > 0
    ensures Pow2(m) <= v < 2 * Pow2(m)
  {
    if v == 1 then 0 else 1 + Msb(v / 2)
  }

  /** Shifts and masks written as division and remainder by powers of two. */
  function BinIndex(value: nat): nat
  {
    if value == 0 then 0 else
      var msb := if Msb(value) < 31 then Msb(value) else 31;
      if msb < 3 then value else msb * 8 + (value / Pow2(msb - 3)) % 8
  }

  function LowerEdge(index: nat): nat
  {
    if index < SUB_COUNT then index
    else if index / 8 < 3 then index
    else (SUB_COUNT + index % 8) * Pow2(index / 8 - 3)
  }

  function UpperEdge(index: nat): nat
  {
    if index < SUB_COUNT then index
    else if index / 8 < 3 then index
    else (SUB_COUNT + 1 + index % 8) * Pow2(index / 8 - 3)
  }

  // ----- powers of two

  lemma {:induction false} Pow2Monotone(a: nat, b: nat)
    requires a <= b
    ensures Pow2(a) <= Pow2(b)
    decreases b
  {
    if a < b { Pow2Monotone(a, b - 1); }
  }

  lemma {:induction false} Pow2Bounds(a: nat, b: nat)
    requires a < b
    ensures 2 * Pow2(a) <= Pow2(b)
  {
    Pow2Monotone(a + 1, b);
  }

  lemma Pow2At31()
    ensures Pow2(28) == 0x1000_0000 && Pow2(31) == TOP_OCTAVE && Pow2(32) == FAITHFUL_LIMIT
  {
    assert Pow2(8) == 0x100;
    assert Pow2(16) == 0x1_0000;
    assert Pow2(24) == 0x100_0000;
    assert Pow2(28) == 0x1000_0000;
    assert Pow2(31) == TOP_OCTAVE;
  }

  lemma MsbUnder32(v: nat)
    requires 0 < v < FAITHFUL_LIMIT
    ensures Msb(v) <= 31
  {
    Pow2At31();
    if Msb(v) > 31 { Pow2Monotone(32, Msb(v)); }
  }

  lemma Pow2Small()
    ensures Pow2(2) == 4 && Pow2(3) == 8
  {
  }

  lemma DivBounds(v: nat, p: nat, s: nat)
    requires p > 0 && s == v / p
    ensures s * p <= v < (s + 1) * p
  {
    assert v == s * p + v % p;
  }

  // ----- bracketing

  /** `v` is in octave `m`, and its top four bits `s` lie in `8..16`. */
  ghost predicate InBin(v: nat, m: nat, s: nat) {
    && 3 <= m <= 31 && 8 <= s < 16
    && s * Pow2(m - 3) <= v < (s + 1) * Pow2(m - 3)
  }

  /** Small values, and only they, get a bin of their own ... */
  lemma BinOfSmall(v: nat)
    requires v < 8
    ensures BinIndex(v) == v
  {
    Pow2Small();
    if v > 0 && Msb(v) >= 3 {
      Pow2Monotone(3, Msb(v));
    }
  }

  /** ... and the index of any other faithful value is its octave followed by the
      three bits after the leading one. */
  lemma BinSplit(v: nat) returns (m: nat, s: nat)
    requires 8 <= v < FAITHFUL_LIMIT
    ensures InBin(v, m, s) && BinIndex(v) == m * 8 + (s - 8)
  {
    m := Msb(v);
    MsbUnder32(v);
    MsbFrom8(v);
    s := TopBits(v, m);
  }

  lemma MsbFrom8(v: nat)
    requires v >= 8
    ensures Msb(v) >= 3
  {
    Pow2Small();
    if Msb(v) < 3 {
      Pow2Monotone(Msb(v), 2);
    }
  }

  lemma TopBits(v: nat, m: nat) returns (s: nat)
    requires m >= 3 && Pow2(m) <= v < 2 * Pow2(m)
    ensures s == v / Pow2(m - 3) && 8 <= s < 16 && s % 8 == s - 8
    ensures s * Pow2(m - 3) <= v < (s + 1) * Pow2(m - 3)
  {
    var p := Pow2(m - 3);
    Pow2Octave(m);
    s := v / p;
    DivBounds(v, p, s);
    if s < 8 { ProductMonotone(s + 1, 8, p); }
    if s >= 16 { ProductMonotone(16, s, p); }
  }

  lemma Pow2Octave(m: nat)
    requires m >= 3
    ensures Pow2(m) == 8 * Pow2(m - 3)
  {
    assert Pow2(m - 1) == 2 * Pow2(m - 2) && Pow2(m - 2) == 2 * Pow2(m - 3);
  }

  /** Values from 2^31 on land in the top octave, whatever their size. */
  lemma BinOfLarge(v: nat)
    requires v >= TOP_OCTAVE
    ensures 31 * 8 <= BinIndex(v) < BIN_COUNT
    ensures BinIndex(v) == 31 * 8 + (v / 0x1000_0000) % 8
  {
    Pow2At31();
    if Msb(v) < 31 { Pow2Bounds(Msb(v), 31); }
  }

  /** Every recorded value has a bin. */
  lemma BinInRange(v: nat)
    ensures BinIndex(v) < BIN_COUNT
  {
    if v < 8 {
      BinOfSmall(v);
    } else if v >= TOP_OCTAVE {
      BinOfLarge(v);
    } else {
      var m, s := BinSplit(v);
    }
  }

  lemma EdgesOf(m: nat, s: nat)
    requires 3 <= m && 8 <= s < 16
    ensures LowerEdge(m * 8 + (s - 8)) == s * Pow2(m - 3)
    ensures UpperEdge(m * 8 + (s - 8)) == (s + 1) * Pow2(m - 3)
  {
    var i := m * 8 + (s - 8);
    assert i / 8 == m && i % 8 == s - 8;
  }

  /** The edges of a value's bin bracket it, and neither is off by more than 1/8. */
  lemma EdgesBracket(v: nat)
    requires v < FAITHFUL_LIMIT
    ensures LowerEdge(BinIndex(v)) <= v <= UpperEdge(BinIndex(v))
    ensures 8 * UpperEdge(BinIndex(v)) <= 9 * v
    ensures 8 * v <= 9 * LowerEdge(BinIndex(v))
  {
    if v < 8 {
      BinOfSmall(v);
    } else {
      var m, s := BinSplit(v);
      EdgesOf(m, s);
      var p := Pow2(m - 3);
      ProductMonotone(8, s, p);
      assert (s + 1) * p == s * p + p;
    }
  }

  /** No edge is above 2^32. */
  lemma EdgesAreBounded(i: nat)
    requires i < BIN_COUNT
    ensures LowerEdge(i) <= UpperEdge(i) <= FAITHFUL_LIMIT
  {
    if i / 8 >= 3 {
      Pow2At31();
      Pow2Monotone(i / 8 - 3, 28);
      ProductMonotone(SUB_COUNT + 1 + i % 8, 16, Pow2(i / 8 - 3));
      ProductMonotone(SUB_COUNT + i % 8, SUB_COUNT + 1 + i % 8, Pow2(i / 8 - 3));
    }
  }

  /** So the edge of an unfaithful value is too low. */
  lemma UnfaithfulEdge(v: nat)
    requires v >= FAITHFUL_LIMIT
    ensures UpperEdge(BinIndex(v)) < v
  {
    if v == FAITHFUL_LIMIT {
      FirstUnfaithfulEdge(v);
    } else {
      BinInRange(v);
      EdgesAreBounded(BinIndex(v));
    }
  }

  lemma FirstUnfaithfulEdge(v: nat)
    requires v == FAITHFUL_LIMIT
    ensures UpperEdge(BinIndex(v)) < v
  {
    BinOfLarge(v);
    TopUpper(v / 0x1000_0000 % 8);
  }

  lemma TopUpper(sub: nat)
    requires sub < 8
    ensures UpperEdge(31 * 8 + sub) == (sub + 9) * 0x1000_0000
  {
    EdgesOf(31, sub + 8);
    Pow2At31();
  }

  /** In the top octave, a bin no later than a value's starts no later than the value,
      even if the value wrapped. */
  lemma TopLowerEdge(v: nat, i: nat)
    requires v >= TOP_OCTAVE && 31 * 8 <= i <= BinIndex(v)
    ensures LowerEdge(i) <= v
  {
    BinOfLarge(v);
    TopLower(i - 31 * 8);
    if v < FAITHFUL_LIMIT {
      TopQuotient(v);
    }
  }

  lemma TopLower(sub: nat)
    requires sub < 8
    ensures LowerEdge(31 * 8 + sub) == (sub + 8) * 0x1000_0000
  {
    EdgesOf(31, sub + 8);
    Pow2At31();
  }

  lemma TopQuotient(v: nat)
    requires TOP_OCTAVE <= v < FAITHFUL_LIMIT
    ensures (v / 0x1000_0000 % 8 + 8) * 0x1000_0000 <= v
  {
    var q := v / 0x1000_0000;
    assert 8 <= q < 16;
    assert q % 8 == q - 8;
  }

  /** The documented error bound holds exactly for the values below 2^32. */
  lemma EdgesBracketExactly(v: nat)
    ensures v <= UpperEdge(BinIndex(v)) && 8 * UpperEdge(BinIndex(v)) <= 9 * v <==> v < FAITHFUL_LIMIT
  {
    if v < FAITHFUL_LIMIT {
      EdgesBracket(v);
    } else {
      UnfaithfulEdge(v);
    }
  }

  // ----- monotone binning

  lemma SplitMonotone(v: nat, m: nat, s: nat, w: nat, n: nat, t: nat)
    requires InBin(v, m, s) && InBin(w, n, t) && v <= w
    ensures m * 8 + s <= n * 8 + t
  {
    if n < m {
      ProductMonotone(t + 1, 16, Pow2(n - 3));
      Pow2Bounds(n - 3, m - 3);
      ProductMonotone(8, s, Pow2(m - 3));
    } else if n == m && t < s {
      ProductMonotone(t + 1, s, Pow2(m - 3));
    }
  }

  /** Larger values never land in smaller bins, as long as the larger one is
      faithful or the smaller one is below the top octave. */
  lemma BinMonotone(v: nat, w: nat)
    requires v <= w && (w < FAITHFUL_LIMIT || v < TOP_OCTAVE)
    ensures BinIndex(v) <= BinIndex(w)
  {
    if w >= FAITHFUL_LIMIT {
      BinOfLarge(w);
      BinUnderTop(v);
    } else if w < 8 {
      BinOfSmall(v);
      BinOfSmall(w);
    } else {
      var n, t := BinSplit(w);
      if v < 8 {
        BinOfSmall(v);
      } else {
        var m, s := BinSplit(v);
        SplitMonotone(v, m, s, w, n, t);
      }
    }
  }

  lemma BinUnderTop(v: nat)
    requires v < TOP_OCTAVE
    ensures BinIndex(v) < 31 * 8
  {
    if v < 8 {
      BinOfSmall(v);
    } else {
      var m, s := BinSplit(v);
      if m == 31 {
        Pow2At31();
        ProductMonotone(8, s, Pow2(28));
      }
    }
  }
}
