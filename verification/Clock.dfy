/** Fixed-point conversion of cycle counts to nanoseconds. */
module Clock {
  import opened Basics

  const TWO_32: nat := 0x1_0000_0000
  const TWO_64: nat := 0x1_0000_0000_0000_0000

  /** The product is 128 bits wide; the shifted result is cast to 64. */
  function CyclesToNanos(cycles: nat, mult: nat): nat {
    cycles * mult / TWO_32 % TWO_64
  }

  /** The multiplier for a measured rate; the quotient is cast to 64 bits. */
  function MultForRate(elapsedCycles: nat, elapsedNanos: nat): Option<nat> {
    if elapsedCycles == 0 || elapsedNanos == 0 then None
    else
      var mult := elapsedNanos * TWO_32 / elapsedCycles % TWO_64;
      if mult == 0 then None else Some(mult)
  }

  /** Nanoseconds at the measured rate, without rounding. */
  function TrueNanos(cycles: nat, elapsedCycles: nat, elapsedNanos: nat): real
    requires elapsedCycles > 0
  {
    cycles as real * elapsedNanos as real / elapsedCycles as real
  }

  lemma Quotient(a: nat, b: nat)
    requires b > 0
    ensures a / b * b <= a < (a / b + 1) * b
  {
  }

  /** Both roundings, before any cast: with m = ⌊n·2³²/e⌋ and s = ⌊c·m/2³²⌋. */
  lemma RoundingBounds(c: nat, e: nat, n: nat, m: nat, s: nat)
    requires e > 0
    requires m * e <= n * TWO_32 < (m + 1) * e
    requires s * TWO_32 <= c * m < (s + 1) * TWO_32
    ensures s * e <= c * n
    ensures c * n * TWO_32 < e * ((s + 1) * TWO_32 + c)
  {
    var lower, upper := m * e, (m + 1) * e;
    ProductMonotone(lower, n * TWO_32, c);
    ProductMonotone(n * TWO_32, upper, c);
    assert c * lower == (c * m) * e;
    assert c * upper == (c * m) * e + c * e;
    ProductMonotone(s * TWO_32, c * m, e);
    ProductStrict(c * m, (s + 1) * TWO_32, e);
    assert s * TWO_32 * e == s * e * TWO_32;
    assert n * TWO_32 * c == c * n * TWO_32;
    assert e * ((s + 1) * TWO_32 + c) == (s + 1) * TWO_32 * e + c * e;
  }

  ghost predicate WithinOneNano(ns: nat, cycles: nat, elapsedCycles: nat, elapsedNanos: nat)
    requires elapsedCycles > 0
  {
    var exact := TrueNanos(cycles, elapsedCycles, elapsedNanos);
    exact - 1.0 - cycles as real / 4294967296.0 < ns as real <= exact
  }

  ghost predicate InProducts(ns: nat, c: nat, e: nat, n: nat) {
    ns * e <= c * n && c * n * TWO_32 < e * ((ns + 1) * TWO_32 + c)
  }

  /** Clearing the denominators of the bound. */
  lemma BoundAsProducts(ns: nat, c: nat, e: nat, n: nat)
    requires e > 0
    ensures WithinOneNano(ns, c, e, n) <==> InProducts(ns, c, e, n)
  {
    var exact := TrueNanos(c, e, n);
    assert exact * e as real == (c * n) as real;
    assert ns as real <= exact <==> (ns * e) as real <= exact * e as real;
    var slack := (ns + 1) as real + c as real / TWO_32 as real - exact;
    var scaled := slack * e as real * TWO_32 as real;
    assert slack > 0.0 <==> scaled > 0.0;
    assert scaled == (e * ((ns + 1) * TWO_32 + c)) as real - (c * n * TWO_32) as real;
  }

  /** A rate has no multiplier exactly when no cycles passed, or the 32-bit fraction of
      nanoseconds per cycle, rounded down, is a multiple of 2⁶⁴, zero included. */
  lemma NoMultiplierExactly(elapsedCycles: nat, elapsedNanos: nat)
    ensures MultForRate(elapsedCycles, elapsedNanos) == None <==>
      elapsedCycles == 0 || exists k: nat :: Wraps(elapsedCycles, elapsedNanos * 0x1_0000_0000, k)
  {
    if elapsedCycles > 0 {
      var scaled := elapsedNanos * 0x1_0000_0000;
      var q := RoundedDown(scaled, elapsedCycles);
      MultByQuotient(elapsedCycles, elapsedNanos, q);
      WrapsExactly(elapsedCycles, scaled, q);
    }
  }

  lemma RoundedDown(a: nat, b: nat) returns (q: nat)
    requires b > 0
    ensures q * b <= a < (q + 1) * b
  {
    q := a / b;
    Quotient(a, b);
  }

  lemma MultByQuotient(e: nat, n: nat, q: nat)
    requires e > 0 && q * e <= n * TWO_32 < (q + 1) * e
    ensures MultForRate(e, n) == if q % TWO_64 == 0 then None else Some(q % TWO_64)
  {
    if n == 0 {
      if q > 0 {
        ProductMonotone(1, q, e);
      }
    } else {
      IsQuotient(n * TWO_32, e, q);
    }
  }

  lemma IsQuotient(a: nat, b: nat, q: nat)
    requires b > 0 && q * b <= a < (q + 1) * b
    ensures a / b == q
  {
    Quotient(a, b);
    QuotientUnique(a, b, q, a / b);
  }

  ghost predicate Wraps(e: nat, scaled: nat, k: nat) {
    k * 0x1_0000_0000_0000_0000 * e <= scaled < (k * 0x1_0000_0000_0000_0000 + 1) * e
  }

  lemma WrapsExactly(e: nat, scaled: nat, q: nat)
    requires e > 0 && q * e <= scaled < (q + 1) * e
    ensures q % TWO_64 == 0 <==> exists k: nat :: Wraps(e, scaled, k)
  {
    if q % TWO_64 == 0 {
      var k := q / TWO_64;
      assert k * TWO_64 == q;
      assert Wraps(e, scaled, k);
    }
    if k: nat :| Wraps(e, scaled, k) {
      QuotientUnique(scaled, e, q, k * TWO_64);
    }
  }

  lemma QuotientUnique(a: nat, b: nat, q: nat, r: nat)
    requires q * b <= a < (q + 1) * b && r * b <= a < (r + 1) * b
    ensures q == r
  {
    if q < r {
      ProductMonotone(q + 1, r, b);
    } else if r < q {
      ProductMonotone(r + 1, q, b);
    }
  }

  /** Between one cycle in 2³² nanoseconds and 2³² cycles in one, every rate has the
      rounded multiplier. */
  lemma UsableRate(elapsedCycles: nat, elapsedNanos: nat)
    requires elapsedCycles > 0
    requires elapsedCycles <= elapsedNanos * 0x1_0000_0000 && elapsedNanos < elapsedCycles * 0x1_0000_0000
    ensures MultForRate(elapsedCycles, elapsedNanos).Some?
    ensures var mult := MultForRate(elapsedCycles, elapsedNanos).value;
      mult * elapsedCycles <= elapsedNanos * 0x1_0000_0000 < (mult + 1) * elapsedCycles
  {
    var q := elapsedNanos * TWO_32 / elapsedCycles;
    Quotient(elapsedNanos * TWO_32, elapsedCycles);
    if q >= TWO_64 {
      ProductMonotone(TWO_64, q, elapsedCycles);
    }
  }

  /** The clock is never early, and late by less than one nanosecond and 2⁻³² of the cycle
      count, exactly at zero cycles or when neither cast truncates. */
  lemma AccurateExactly(cycles: nat, elapsedCycles: nat, elapsedNanos: nat)
    requires cycles < 0x1_0000_0000_0000_0000
    requires MultForRate(elapsedCycles, elapsedNanos).Some?
    ensures var mult := MultForRate(elapsedCycles, elapsedNanos).value;
      WithinOneNano(CyclesToNanos(cycles, mult), cycles, elapsedCycles, elapsedNanos) <==>
        cycles == 0 ||
        (elapsedNanos * 0x1_0000_0000 / elapsedCycles < 0x1_0000_0000_0000_0000
         && cycles * mult / 0x1_0000_0000 < 0x1_0000_0000_0000_0000)
  {
    var mult := MultForRate(elapsedCycles, elapsedNanos).value;
    var m, s := elapsedNanos * TWO_32 / elapsedCycles, cycles * mult / TWO_32;
    Quotient(elapsedNanos * TWO_32, elapsedCycles);
    Quotient(cycles * mult, TWO_32);
    BoundAsProducts(s % TWO_64, cycles, elapsedCycles, elapsedNanos);
    TwoCasts(cycles, elapsedCycles, elapsedNanos, m, mult, s);
  }

  /** The same with the two quotients named before their casts. */
  lemma TwoCasts(c: nat, e: nat, n: nat, m: nat, mult: nat, s: nat)
    requires c < TWO_64 && e > 0 && mult == m % TWO_64
    requires m * e <= n * TWO_32 < (m + 1) * e
    requires s * TWO_32 <= c * mult < (s + 1) * TWO_32
    ensures InProducts(s % TWO_64, c, e, n) <==> c == 0 || (m < TWO_64 && s < TWO_64)
  {
    if m < TWO_64 {
      RoundingBounds(c, e, n, m, s);
      if s >= TWO_64 {
        TruncationIsLate(s, c, e, n);
      } else {
        assert s % TWO_64 == s;
      }
      if c == 0 {
        assert s == 0;
      }
    } else if c == 0 {
      assert s == 0;
      AtZero(e, n);
    } else {
      assert mult + TWO_64 <= m && s % TWO_64 <= s;
      ShortMultiplier(s % TWO_64, s, c, m, mult);
      LateByProducts(s % TWO_64, c, e, n, m);
    }
  }

  lemma AtZero(e: nat, n: nat)
    requires e > 0
    ensures InProducts(0, 0, e, n)
  {
  }

  /** A multiplier that lost 2⁶⁴ is late after one cycle ... */
  lemma ShortMultiplier(ns: nat, s: nat, c: nat, m: nat, mult: nat)
    requires c > 0 && ns <= s && mult + TWO_64 <= m && s * TWO_32 <= c * mult
    ensures (ns + 1) * TWO_32 + c <= m * c
  {
    ProductMonotone(mult + TWO_64, m, c);
    assert (mult + TWO_64) * c == c * mult + TWO_64 * c;
  }

  /** ... by more than the bound allows. */
  lemma LateByProducts(ns: nat, c: nat, e: nat, n: nat, m: nat)
    requires (ns + 1) * TWO_32 + c <= m * c && m * e <= n * TWO_32
    ensures !InProducts(ns, c, e, n)
  {
    var late, lower, upper := (ns + 1) * TWO_32 + c, m * e, n * TWO_32;
    ProductMonotone(late, m * c, e);
    ProductMonotone(lower, upper, c);
    assert m * c * e == lower * c;
    assert upper * c == c * n * TWO_32;
  }

  /** A rate at which the first cast truncates: the clock then shows one nanosecond after
      more than four seconds. */
  lemma TruncatedRate()
    ensures MultForRate(1, 0x1_0000_0001) == Some(0x1_0000_0000)
    ensures CyclesToNanos(1, 0x1_0000_0000) == 1 && !WithinOneNano(1, 1, 1, 0x1_0000_0001)
  {
    AccurateExactly(1, 1, TWO_32 + 1);
  }

  lemma TruncationIsLate(s: nat, c: nat, e: nat, n: nat)
    requires s >= TWO_64 && c < TWO_64 && e > 0 && s * e <= c * n
    ensures e * ((s % TWO_64 + 1) * TWO_32 + c) <= c * n * TWO_32
  {
    assert (s % TWO_64 + 1) * TWO_32 + c <= s * TWO_32;
    ProductMonotone((s % TWO_64 + 1) * TWO_32 + c, s * TWO_32, e);
    ProductMonotone(s * e, c * n, TWO_32);
  }

  /** While the cast does not truncate, time does not run backwards. */
  lemma ClockIsMonotone(c: nat, c': nat, mult: nat)
    requires c <= c' && c' * mult / TWO_32 < TWO_64
    ensures CyclesToNanos(c, mult) <= CyclesToNanos(c', mult)
  {
    ProductMonotone(c, c', mult);
  }

  const TWO_96: nat := 0x1_0000_0000_0000_0000_0000_0000

  lemma BelowWrap(p: nat)
    requires TWO_96 - TWO_64 <= p < TWO_96
    ensures p / TWO_32 % TWO_64 >= TWO_64 - TWO_32
  {
    assert TWO_64 - TWO_32 <= p / TWO_32 < TWO_64;
  }

  lemma AboveWrap(p: nat)
    requires TWO_96 <= p < TWO_96 + TWO_64
    ensures p / TWO_32 % TWO_64 < TWO_32
  {
    assert TWO_64 <= p / TWO_32 < TWO_64 + TWO_32;
  }

  /** The last count before the first wrap, and the drop of the clock just after it. */
  lemma FirstWrap(mult: nat) returns (c: nat)
    requires TWO_32 < mult < TWO_64
    ensures c + 1 < TWO_64
    ensures CyclesToNanos(c, mult) >= TWO_64 - TWO_32 && CyclesToNanos(c + 1, mult) < TWO_32
  {
    c := (TWO_96 - 1) / mult;
    Quotient(TWO_96 - 1, mult);
    ProductSuccessor(c, mult);
    BelowWrap(c * mult);
    AboveWrap((c + 1) * mult);
    WrapCountFits(c, mult);
  }

  lemma WrapCountFits(c: nat, mult: nat)
    requires mult > TWO_32 && c * mult < TWO_96
    ensures c + 1 < TWO_64
  {
    ProductMonotone(TWO_32 + 1, mult, c);
    assert (TWO_32 + 1) * c <= c * mult;
  }

  /** Over the whole 64-bit counter, time never runs backwards exactly for rates of at
      least one cycle per nanosecond. */
  lemma MonotoneExactly(mult: nat)
    requires mult < 0x1_0000_0000_0000_0000
    ensures (forall c: nat, c': nat :: c <= c' < 0x1_0000_0000_0000_0000 ==> CyclesToNanos(c, mult) <= CyclesToNanos(c', mult)) <==> mult <= 0x1_0000_0000
  {
    if mult <= TWO_32 {
      forall c: nat, c': nat | c <= c' < TWO_64 ensures CyclesToNanos(c, mult) <= CyclesToNanos(c', mult) {
        ProductMonotone(mult, TWO_32, c');
        assert mult * c' == c' * mult;
        ClockIsMonotone(c, c', mult);
      }
    } else {
      var c := FirstWrap(mult);
      assert CyclesToNanos(c + 1, mult) < CyclesToNanos(c, mult);
    }
  }
}
