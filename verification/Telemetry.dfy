/** The latency histogram and the exact-sample reservoir, each proved to answer
    percentiles about the samples it was given. */
module Telemetry {
  import opened Basics
  import opened OrderStatistics
  import opened LatencyBins

  // ----- ranks

  function Ceil(x: real): int { -(-x).Floor }

  /** The histogram's rank: the fraction of the samples, rounded up, at least 1. */
  function CeilRank(n: nat, p: real): (r: nat)
    requires n > 0 && 0.0 <= p <= 1.0
    ensures 1 <= r <= n
  {
    RankBounds(n, p);
    var r := Ceil(n as real * p);
    if r < 1 then 1 else r
  }

  /** The reservoir's rank: the same fraction rounded down, at least 1. */
  function FloorRank(n: nat, p: real): (r: nat)
    requires n > 0 && 0.0 <= p <= 1.0
    ensures 1 <= r <= n
  {
    RankBounds(n, p);
    var r := (n as real * p).Floor;
    if r < 1 then 1 else r
  }

  lemma RankBounds(n: nat, p: real)
    requires 0.0 <= p <= 1.0
    ensures 0.0 <= n as real * p <= n as real
  {
    assert n as real * p <= n as real * 1.0;
  }

  /** What the two ranks are, without rounding functions. */
  lemma CeilRankExactly(n: nat, p: real, r: nat)
    requires n > 0 && 0.0 <= p <= 1.0
    ensures r == CeilRank(n, p) <==>
      if n as real * p > 0.0 then r as real - 1.0 < n as real * p <= r as real else r == 1
  {
    RankBounds(n, p);
    CeilExactly(n as real * p, r);
  }

  lemma CeilExactly(x: real, r: nat)
    requires x >= 0.0
    ensures x > 0.0 ==> Ceil(x) >= 1
    ensures r == Ceil(x) <==> r as real - 1.0 < x <= r as real
  {
  }

  lemma FloorRankExactly(n: nat, p: real, r: nat)
    requires n > 0 && 0.0 <= p <= 1.0
    ensures r == FloorRank(n, p) <==>
      if n as real * p >= 1.0 then r as real <= n as real * p < r as real + 1.0 else r == 1
  {
    RankBounds(n, p);
  }

  /** The fraction of `n` samples is below one, or whole. */
  ghost predicate WholeFraction(n: nat, p: real) {
    n as real * p < 1.0 || (n as real * p).Floor as real == n as real * p
  }

  /** The two ranks agree exactly when the fraction is whole or below one sample. */
  lemma RanksAgree(n: nat, p: real)
    requires n > 0 && 0.0 <= p <= 1.0
    ensures FloorRank(n, p) <= CeilRank(n, p)
    ensures FloorRank(n, p) == CeilRank(n, p) <==> WholeFraction(n, p)
  {
    RankBounds(n, p);
  }

  // ----- bin counts are counts of samples

  /** How many samples land in a bin below `bound`. */
  ghost function BinBelow(xs: seq<nat>, bound: nat): (c: nat) {
    if xs == [] then 0 else BinBelow(xs[..|xs| - 1], bound) + if BinIndex(xs[|xs| - 1]) < bound then 1 else 0
  }

  ghost function InBinCount(xs: seq<nat>, i: nat): (c: nat) {
    if xs == [] then 0 else InBinCount(xs[..|xs| - 1], i) + if BinIndex(xs[|xs| - 1]) == i then 1 else 0
  }

  lemma {:induction false} BinBelowStep(xs: seq<nat>, i: nat)
    ensures BinBelow(xs, i + 1) == BinBelow(xs, i) + InBinCount(xs, i)
    ensures i == 0 ==> BinBelow(xs, i) == 0
  {
    if xs != [] { BinBelowStep(xs[..|xs| - 1], i); }
  }

  lemma {:induction false} BinBelowAll(xs: seq<nat>)
    ensures BinBelow(xs, BIN_COUNT) == |xs|
  {
    if xs != [] {
      BinBelowAll(xs[..|xs| - 1]);
      BinInRange(xs[|xs| - 1]);
    }
  }

  lemma {:induction false} BinBelowMonotone(xs: seq<nat>, a: nat, b: nat)
    requires a <= b
    ensures BinBelow(xs, a) <= BinBelow(xs, b)
  {
    if xs != [] { BinBelowMonotone(xs[..|xs| - 1], a, b); }
  }

  ghost predicate Faithful(xs: seq<nat>) {
    forall i :: 0 <= i < |xs| ==> xs[i] < FAITHFUL_LIMIT
  }

  /** Bins separate the samples below `x` from the others, so scanning bins up to
      and including `x`'s counts at least the samples not above `x`, and stopping
      short of it counts only samples below `x`. */
  lemma {:induction false} BinsSeparate(xs: seq<nat>, x: nat)
    requires (Faithful(xs) && x < FAITHFUL_LIMIT) || x < TOP_OCTAVE
    ensures BinBelow(xs, BinIndex(x)) <= Below(xs, x)
    ensures Below(xs, x + 1) <= BinBelow(xs, BinIndex(x) + 1)
  {
    if xs != [] {
      var last := xs[|xs| - 1];
      BinsSeparate(xs[..|xs| - 1], x);
      if last >= x { BinMonotone(x, last); }
      if last <= x { BinMonotone(last, x); }
    }
  }

  // ----- the histogram

  /** The value the histogram reports for the sample of rank `r`. */
  ghost predicate Reports(e: nat, xs: seq<nat>, r: nat)
    requires 1 <= r <= |xs|
  {
    e == UpperEdge(BinIndex(OrderStatistic(xs, r)))
  }

  /** A rank is reportable when its sample is below the top octave, or nothing wrapped. */
  ghost predicate Reportable(xs: seq<nat>, r: nat)
    requires 1 <= r <= |xs|
  {
    Faithful(xs) || OrderStatistic(xs, r) < TOP_OCTAVE
  }

  /** Bin `i` is the first whose cumulative count reaches rank `r`. */
  ghost predicate ScanStopsAt(xs: seq<nat>, r: nat, i: nat) {
    BinBelow(xs, i) < r <= BinBelow(xs, i + 1)
  }

  /** The first bin whose cumulative count reaches rank `r` is the bin of the sample
      of rank `r`. */
  lemma ScanFindsRank(xs: seq<nat>, r: nat, i: nat)
    requires 1 <= r <= |xs| && Reportable(xs, r)
    requires ScanStopsAt(xs, r, i)
    ensures i == BinIndex(OrderStatistic(xs, r))
  {
    var x := OrderStatistic(xs, r);
    OrderStatisticIsRanked(xs, r);
    RankedIsSample(xs, r, x);
    BinsSeparate(xs, x);
    var j := BinIndex(x);
    if i < j {
      BinBelowMonotone(xs, i + 1, j);
    } else if j < i {
      BinBelowMonotone(xs, j + 1, i);
    }
  }

  /** The exact extremes, with the initial values standing in for "nothing recorded". */
  ghost predicate AreExtremes(xs: seq<nat>, least: nat, greatest: nat) {
    && (forall i :: 0 <= i < |xs| ==> least <= xs[i] <= greatest)
    && (if xs == [] then greatest == 0 && least == U64_LIMIT - 1 else greatest in xs && least in xs && greatest < U64_LIMIT)
  }

  ghost function Sum(xs: seq<nat>): nat {
    if xs == [] then 0 else Sum(xs[..|xs| - 1]) + xs[|xs| - 1]
  }

  lemma ExtremesPush(xs: seq<nat>, least: nat, greatest: nat, x: nat)
    requires AreExtremes(xs, least, greatest) && x < U64_LIMIT
    ensures AreExtremes(xs + [x], if x < least then x else least, if x > greatest then x else greatest)
  {
    if xs != [] {
      assert greatest in xs + [x] && least in xs + [x];
    }
    assert (xs + [x])[|xs|] == x;
  }

  /** One counter per bin, counting the samples that landed in it. */
  ghost predicate AreCounts(counts: seq<nat>, xs: seq<nat>) {
    |counts| == BIN_COUNT && forall i :: 0 <= i < BIN_COUNT ==> counts[i] == InBinCount(xs, i)
  }

  lemma CountsPush(counts: seq<nat>, xs: seq<nat>, x: nat)
    requires AreCounts(counts, xs)
    ensures BinIndex(x) < BIN_COUNT
    ensures AreCounts(counts[BinIndex(x) := counts[BinIndex(x)] + 1], xs + [x])
  {
    BinInRange(x);
    assert (xs + [x])[..|xs|] == xs;
  }

  lemma {:induction false} Occupied(xs: seq<nat>, x: nat)
    requires x in xs
    ensures BinIndex(x) < BIN_COUNT && InBinCount(xs, BinIndex(x)) > 0
  {
    BinInRange(x);
    if xs[|xs| - 1] != x { Occupied(xs[..|xs| - 1], x); }
  }

  lemma {:induction false} Occupant(xs: seq<nat>, i: nat) returns (x: nat)
    requires InBinCount(xs, i) > 0
    ensures x in xs && BinIndex(x) == i
  {
    x := xs[|xs| - 1];
    if BinIndex(x) != i { x := Occupant(xs[..|xs| - 1], i); }
  }

  /** Bin `i` is the highest, or the lowest, that is not empty. */
  ghost predicate IsHighest(xs: seq<nat>, i: nat) {
    i < BIN_COUNT && InBinCount(xs, i) > 0 && forall j :: i < j < BIN_COUNT ==> InBinCount(xs, j) == 0
  }

  ghost predicate IsLowest(xs: seq<nat>, i: nat) {
    i < BIN_COUNT && InBinCount(xs, i) > 0 && forall j :: 0 <= j < i ==> InBinCount(xs, j) == 0
  }

  /** The highest bin is the maximum's, unless something wrapped; then its edge does not
      exceed the maximum. */
  lemma TopBin(xs: seq<nat>, least: nat, greatest: nat, i: nat)
    requires AreExtremes(xs, least, greatest) && IsHighest(xs, i)
    ensures Faithful(xs) ==> greatest <= UpperEdge(i) && 8 * UpperEdge(i) <= 9 * greatest
    ensures !Faithful(xs) ==> UpperEdge(i) <= FAITHFUL_LIMIT <= greatest
  {
    var x := Occupant(xs, i);
    Occupied(xs, greatest);
    if Faithful(xs) {
      BinMonotone(x, greatest);
      EdgesBracket(greatest);
    } else {
      EdgesAreBounded(i);
    }
  }

  /** The lowest bin starts at or below the minimum; it is the minimum's whenever the
      minimum is below the top octave or nothing wrapped. */
  lemma BottomBin(xs: seq<nat>, least: nat, greatest: nat, i: nat)
    requires AreExtremes(xs, least, greatest) && IsLowest(xs, i)
    ensures LowerEdge(i) <= least
    ensures Faithful(xs) || least < TOP_OCTAVE ==> 8 * least <= 9 * LowerEdge(i)
  {
    var x := Occupant(xs, i);
    Occupied(xs, least);
    if Faithful(xs) || least < TOP_OCTAVE {
      BinMonotone(least, x);
      EdgesBracket(least);
    } else {
      BinOfLarge(x);
      TopLowerEdge(least, i);
    }
  }

  lemma SumPush(xs: seq<nat>, x: nat)
    ensures (Sum(xs) % U64_LIMIT + x) % U64_LIMIT == Sum(xs + [x]) % U64_LIMIT
  {
    assert (xs + [x])[..|xs|] == xs;
  }

  class LatencyHistogram {
    const bins: array<nat>
    var exactMax: nat
    var exactMin: nat
    var sumNs: nat

    /** Everything recorded since the last reset. */
    ghost var recorded: seq<nat>

    ghost predicate Valid()
      reads this, bins
    {
      && AreCounts(bins[..], recorded)
      && AreExtremes(recorded, exactMin, exactMax)
      && sumNs == Sum(recorded) % U64_LIMIT
    }

    constructor ()
      ensures Valid() && recorded == [] && fresh(bins)
    {
      bins := new nat[BIN_COUNT](_ => 0);
      exactMax, exactMin, sumNs := 0, U64_LIMIT - 1, 0;
      recorded := [];
    }

    method Record(durationNs: nat)
      requires Valid() && durationNs < U64_LIMIT
      modifies this, bins
      ensures Valid() && recorded == old(recorded) + [durationNs]
    {
      NoteExtremes(durationNs);
      SumPush(recorded, durationNs);
      sumNs := (sumNs + durationNs) % U64_LIMIT;
      Count(durationNs);
      recorded := recorded + [durationNs];
    }

    /** The lock-free maximum and minimum updates. */
    method NoteExtremes(durationNs: nat)
      requires AreExtremes(recorded, exactMin, exactMax) && durationNs < U64_LIMIT
      modifies this`exactMax, this`exactMin
      ensures AreExtremes(recorded + [durationNs], exactMin, exactMax)
    {
      ExtremesPush(recorded, exactMin, exactMax, durationNs);
      if durationNs > exactMax { exactMax := durationNs; }
      if durationNs < exactMin { exactMin := durationNs; }
    }

    /** The counter update. */
    method Count(durationNs: nat)
      requires AreCounts(bins[..], recorded)
      modifies bins
      ensures AreCounts(bins[..], recorded + [durationNs])
    {
      var index := BinIndex(durationNs);
      CountsPush(bins[..], recorded, durationNs);
      ghost var before := bins[..];
      if index < bins.Length {
        bins[index] := bins[index] + 1;
      }
      assert bins[..] == before[index := before[index] + 1];
    }

    /** Percentile by scanning cumulative counts. It is exact up to the width of
        one bin: never below the true order statistic, and at most 1/8 above. */
    method GetPercentileOpt(p: real) returns (r: Option<nat>)
      requires Valid()
      ensures r.None? <==> recorded == [] || !(0.0 <= p <= 1.0)
      ensures r.Some? ==> exists i: nat :: ScanStopsAt(recorded, CeilRank(|recorded|, p), i) && r.value == UpperEdge(i)
      ensures r.Some? && Reportable(recorded, CeilRank(|recorded|, p)) ==>
        Reports(r.value, recorded, CeilRank(|recorded|, p))
      ensures r.Some? ==>
        var x := OrderStatistic(recorded, CeilRank(|recorded|, p));
        x < 0x8000_0000 || (forall y :: y in recorded ==> y < 0x1_0000_0000) ==> x <= r.value && 8 * r.value <= 9 * x
    {
      if !(0.0 <= p <= 1.0) {
        return None;
      }
      var total := TotalCount();
      if total == 0 {
        return None;
      }
      var rank := CeilRank(total, p);
      var accum := 0;
      BinBelowStep(recorded, 0);
      for i := 0 to BIN_COUNT
        invariant accum == BinBelow(recorded, i) < rank
      {
        BinBelowStep(recorded, i);
        assert bins[i] == bins[..][i];
        accum := accum + bins[i];
        if accum >= rank {
          assert ScanStopsAt(recorded, rank, i);
          if Reportable(recorded, rank) {
            ScanFindsRank(recorded, rank, i);
            ReportAccuracy(recorded, rank, UpperEdge(i));
          }
          return Some(UpperEdge(i));
        }
      }
      BinBelowAll(recorded);
      assert false;
    }

    /** The upper edge of the highest non-empty bin: at most 1/8 above the true maximum,
        and at most the maximum once anything reached 2^32. */
    method GetMax() returns (e: nat)
      requires Valid()
      ensures recorded == [] ==> e == 0
      ensures recorded != [] ==> exists i: nat :: IsHighest(recorded, i) && e == UpperEdge(i)
      ensures recorded != [] && Faithful(recorded) ==> exactMax <= e && 8 * e <= 9 * exactMax
      ensures !Faithful(recorded) ==> e <= FAITHFUL_LIMIT <= exactMax
    {
      for i := BIN_COUNT downto 0
        invariant forall j :: i <= j < BIN_COUNT ==> bins[j] == 0
      {
        if bins[i] > 0 {
          assert bins[i] == bins[..][i];
          assert IsHighest(recorded, i);
          TopBin(recorded, exactMin, exactMax, i);
          return UpperEdge(i);
        }
      }
      if recorded != [] { Occupied(recorded, recorded[0]); }
      e := 0;
    }

    /** The lower edge of the lowest non-empty bin: never above the true minimum, and at
        most 1/9 below it if the minimum is below the top octave or nothing reached 2^32. */
    method GetMin() returns (e: nat)
      requires Valid()
      ensures recorded == [] ==> e == 0
      ensures recorded != [] ==> exists i: nat :: IsLowest(recorded, i) && e == LowerEdge(i)
      ensures recorded != [] ==> e <= exactMin
      ensures recorded != [] && (Faithful(recorded) || exactMin < TOP_OCTAVE) ==> 8 * exactMin <= 9 * e
    {
      for i := 0 to BIN_COUNT
        invariant forall j :: 0 <= j < i ==> bins[j] == 0
      {
        if bins[i] > 0 {
          assert bins[i] == bins[..][i];
          assert IsLowest(recorded, i);
          BottomBin(recorded, exactMin, exactMax, i);
          return LowerEdge(i);
        }
      }
      if recorded != [] { Occupied(recorded, recorded[0]); }
      e := 0;
    }

    method TotalCount() returns (total: nat)
      requires Valid()
      ensures total == |recorded|
    {
      total := 0;
      BinBelowStep(recorded, 0);
      for i := 0 to BIN_COUNT
        invariant total == BinBelow(recorded, i)
      {
        BinBelowStep(recorded, i);
        assert bins[i] == bins[..][i];
        total := total + bins[i];
      }
      BinBelowAll(recorded);
    }

    /** Zeros every counter. */
    method Reset()
      requires bins.Length == BIN_COUNT
      modifies this, bins
      ensures Valid() && recorded == []
    {
      forall i | 0 <= i < bins.Length { bins[i] := 0; }
      exactMax, exactMin, sumNs := 0, U64_LIMIT - 1, 0;
      recorded := [];
    }
  }

  /** What a report is worth: an upper bound on the order statistic, tight to 9/8.
      With nothing recorded at or above 2^32 this covers every percentile. */
  lemma ReportAccuracy(xs: seq<nat>, r: nat, e: nat)
    requires 1 <= r <= |xs| && Reportable(xs, r) && Reports(e, xs, r)
    ensures OrderStatistic(xs, r) <= e
    ensures 8 * e <= 9 * OrderStatistic(xs, r)
  {
    OrderStatisticIsRanked(xs, r);
    RankedIsSample(xs, r, OrderStatistic(xs, r));
    EdgesBracket(OrderStatistic(xs, r));
  }

  // ----- the exact reservoir

  /** The samples a reservoir of capacity `n` still holds: the last `n` of `history`. */
  ghost function Retained(history: seq<nat>, n: nat): (w: seq<nat>)
    ensures |w| == if |history| <= n then |history| else n
  {
    if |history| <= n then history else history[|history| - n..]
  }

  /** `cells` is a ring over the retained samples whose next slot to be overwritten is
      `slot`: while filling, a prefix; when full, from `slot` around to the newest. */
  ghost predicate IsRing(cells: seq<nat>, n: nat, history: seq<nat>, slot: nat) {
    && slot < |cells| == n
    && (|history| < n ==> slot == |history| && cells[..slot] == history)
    && (|history| >= n ==> cells[slot..] + cells[..slot] == Retained(history, n))
  }

  lemma NextSlot(c: nat, n: nat)
    requires n > 0
    ensures (c + 1) % n == Next(c % n, n)
  {
    if c % n + 1 == n {
      RemainderUnique(n, (c + 1) / n, (c + 1) % n, c / n + 1, 0);
    } else {
      RemainderUnique(n, (c + 1) / n, (c + 1) % n, c / n, c % n + 1);
    }
  }

  lemma RemainderUnique(n: nat, q: int, r: nat, q': int, r': nat)
    requires r < n && r' < n && n * q + r == n * q' + r'
    ensures r == r'
  {
    if q < q' {
      AtLeastOnce(n, q' - q);
    } else if q' < q {
      AtLeastOnce(n, q - q');
    }
  }

  lemma AtLeastOnce(n: nat, d: int)
    requires d >= 1
    ensures n * d >= n
  {
  }

  function Next(slot: nat, n: nat): nat {
    if slot + 1 == n then 0 else slot + 1
  }

  lemma RingPush(cells: seq<nat>, n: nat, history: seq<nat>, slot: nat, x: nat)
    requires IsRing(cells, n, history, slot)
    ensures IsRing(cells[slot := x], n, history + [x], Next(slot, n))
  {
    if |history| < n {
      RingFill(cells, n, history, x);
    } else {
      RingOverwrite(cells, n, history, slot, x);
      RetainedPush(history, n, x);
    }
  }

  lemma RetainedPush(history: seq<nat>, n: nat, x: nat)
    requires |history| >= n > 0
    ensures Retained(history + [x], n) == Retained(history, n)[1..] + [x]
  {
  }

  lemma RingFill(cells: seq<nat>, n: nat, history: seq<nat>, x: nat)
    requires |history| < n == |cells| && cells[..|history|] == history
    ensures cells[|history| := x][..|history| + 1] == history + [x]
    ensures |history| + 1 == n ==> cells[|history| := x][0..] + cells[|history| := x][..0] == history + [x]
  {
  }

  /** Overwriting the oldest cell of a full ring drops the oldest sample. */
  lemma RingOverwrite(cells: seq<nat>, n: nat, history: seq<nat>, slot: nat, x: nat)
    requires slot < n == |cells| <= |history|
    requires cells[slot..] + cells[..slot] == Retained(history, n)
    ensures var next, head := cells[slot := x], Next(slot, n);
            next[head..] + next[..head] == Retained(history, n)[1..] + [x]
  {
    var next := cells[slot := x];
    assert Retained(history, n)[1..] == cells[slot + 1..] + cells[..slot];
    assert next[slot + 1..] == cells[slot + 1..];
    if slot + 1 == n {
      assert next[0..] + next[..0] == cells[..slot] + [x];
    } else {
      assert next[..slot + 1] == cells[..slot] + [x];
    }
  }

  /** The filled slots hold exactly the retained samples, in some rotation. */
  lemma RingHolds(cells: seq<nat>, n: nat, history: seq<nat>, slot: nat)
    requires IsRing(cells, n, history, slot)
    ensures multiset(cells[..|Retained(history, n)|]) == multiset(Retained(history, n))
  {
    if |history| >= n {
      HalvesSwapped(cells, slot);
      assert cells[..n] == cells;
    }
  }

  lemma HalvesSwapped(cells: seq<nat>, slot: nat)
    requires slot <= |cells|
    ensures multiset(cells[slot..] + cells[..slot]) == multiset(cells)
  {
    assert cells == cells[..slot] + cells[slot..];
  }

  /** So the ring's order statistics are those of the retained samples. */
  lemma RingStatistic(cells: seq<nat>, n: nat, history: seq<nat>, slot: nat, r: nat)
    requires IsRing(cells, n, history, slot) && 1 <= r <= |Retained(history, n)|
    ensures OrderStatistic(cells[..|Retained(history, n)|], r) == OrderStatistic(Retained(history, n), r)
  {
    if |history| >= n {
      assert cells[..n] == cells[..slot] + cells[slot..];
      OrderStatisticRotated(cells[..slot], cells[slot..], r);
    }
  }

  /** The zero-based index of the percentile in the sorted snapshot. */
  function RankIndex(len: nat, p: real): (i: nat)
    requires len > 0
    ensures i == FloorRank(len, Clamp(p)) - 1
  {
    RankBounds(len, Clamp(p));
    var rank := (len as real * Clamp(p)).Floor;
    var capped := if rank > len then len else rank;
    if capped < 1 then 0 else capped - 1
  }

  class ExactLatencyReservoir {
    const samples: array<nat>
    var count: nat

    ghost var history: seq<nat>

    ghost predicate Valid()
      reads this, samples
    {
      && count == |history| && samples.Length > 0
      && IsRing(samples[..], samples.Length, history, count % samples.Length)
    }

    constructor (n: nat)
      requires n > 0
      ensures Valid() && history == [] && samples.Length == n && fresh(samples)
    {
      samples := new nat[n](_ => 0);
      count := 0;
      history := [];
    }

    method Record(durationNs: nat)
      requires Valid()
      modifies this, samples
      ensures Valid() && history == old(history) + [durationNs]
    {
      var slot := count % samples.Length;
      RingPush(samples[..], samples.Length, history, slot, durationNs);
      NextSlot(count, samples.Length);
      ghost var before := samples[..];
      samples[slot] := durationNs;
      assert samples[..] == before[slot := durationNs];
      count := count + 1;
      history := history + [durationNs];
    }

    function Len(): nat
      reads this
    {
      if count <= samples.Length then count else samples.Length
    }

    /** The percentile of the retained samples; 0 when empty. */
    method PercentileExact(p: real) returns (v: nat)
      requires Valid()
      ensures history == [] ==> v == 0
      ensures history != [] ==> IsPercentile(v, Retained(history, samples.Length), p)
    {
      var len := Len();
      if len == 0 {
        return 0;
      }
      var snapshot := Sorted(samples[..len]);
      var rank := RankIndex(len, p);
      v := snapshot[rank];
      assert samples[..][..len] == samples[..len];
      RingStatistic(samples[..], samples.Length, history, count % samples.Length, rank + 1);
      ClampedIsPercentile(Retained(history, samples.Length), p);
    }

    method Reset()
      requires samples.Length > 0
      modifies this, samples
      ensures Valid() && history == []
    {
      forall i | 0 <= i < samples.Length { samples[i] := 0; }
      count := 0;
      history := [];
    }
  }

  function Clamp(p: real): (c: real)
    ensures 0.0 <= c <= 1.0
  {
    if p < 0.0 then 0.0 else if p > 1.0 then 1.0 else p
  }

  /** Inside the unit interval, the order statistic of the floor rank of `p` itself;
      below it the least sample, and above it the greatest. */
  ghost predicate IsPercentile(v: nat, xs: seq<nat>, p: real)
    requires xs != []
  {
    && (0.0 <= p <= 1.0 ==> v == OrderStatistic(xs, FloorRank(|xs|, p)))
    && (p <= 0.0 ==> v in xs && forall x :: x in xs ==> v <= x)
    && (p >= 1.0 ==> v in xs && forall x :: x in xs ==> x <= v)
  }

  lemma ClampedIsPercentile(xs: seq<nat>, p: real)
    requires xs != []
    ensures IsPercentile(OrderStatistic(xs, FloorRank(|xs|, Clamp(p))), xs, p)
  {
    LeastAndGreatest(xs);
  }

  /** Histogram against reservoir on the same samples: the histogram never reports
      less than the reservoir's answer `v`, and wherever the two ranks coincide its
      report is within 9/8 of it. */
  lemma HistogramAgreesWithReservoir(history: seq<nat>, n: nat, p: real, e: nat, v: nat)
    requires 0 < |history| <= n && 0.0 <= p <= 1.0
    requires Reportable(history, CeilRank(|history|, p)) && Reports(e, history, CeilRank(|history|, p))
    requires IsPercentile(v, Retained(history, n), p)
    ensures v <= e
    ensures WholeFraction(|history|, p) ==> 8 * e <= 9 * v
  {
    assert Retained(history, n) == history;
    RanksAgree(|history|, p);
    var r, s := FloorRank(|history|, p), CeilRank(|history|, p);
    assert v == OrderStatistic(history, r);
    ReportBounds(history, r, s, e, v);
  }

  lemma ReportBounds(xs: seq<nat>, r: nat, s: nat, e: nat, v: nat)
    requires 1 <= r <= s <= |xs| && Reportable(xs, s) && Reports(e, xs, s)
    requires v == OrderStatistic(xs, r)
    ensures v <= e && (r == s ==> 8 * e <= 9 * v)
  {
    ReportAccuracy(xs, s, e);
    OrderStatisticMonotone(xs, r, s);
  }
}
