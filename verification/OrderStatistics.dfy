/** Order statistics of finite samples: the values that percentiles are about. */
module OrderStatistics {

  /** How many samples are below `bound`. */
  ghost function Below(xs: seq<nat>, bound: nat): (c: nat)
    ensures c <= |xs|
  {
    if xs == [] then 0 else Below(xs[..|xs| - 1], bound) + if xs[|xs| - 1] < bound then 1 else 0
  }

  /** `x` is the sample of rank `r`, counting from 1 in ascending order: fewer than
      `r` samples are below it and at least `r` are not above it. */
  ghost predicate IsRanked(xs: seq<nat>, r: nat, x: nat) {
    Below(xs, x) < r <= Below(xs, x + 1)
  }

  predicate Ascending(xs: seq<nat>) {
    forall i :: 0 < i < |xs| ==> xs[i - 1] <= xs[i]
  }

  lemma {:induction false} AscendingOrder(xs: seq<nat>, i: nat, j: nat)
    requires Ascending(xs) && i <= j < |xs|
    ensures xs[i] <= xs[j]
    decreases j - i
  {
    if i < j {
      AscendingOrder(xs, i, j - 1);
    }
  }

  /** Inserts `x` after every sample not above it. */
  function Insert(xs: seq<nat>, x: nat): (ys: seq<nat>)
    requires Ascending(xs)
    ensures |ys| == |xs| + 1 && Ascending(ys)
    ensures ys[|xs|] == if xs == [] || xs[|xs| - 1] <= x then x else xs[|xs| - 1]
  {
    if xs == [] then [x]
    else if xs[|xs| - 1] <= x then xs + [x]
    else Insert(xs[..|xs| - 1], x) + [xs[|xs| - 1]]
  }

  /** The samples in ascending order. */
  function Sorted(xs: seq<nat>): (ys: seq<nat>)
    ensures |ys| == |xs| && Ascending(ys)
  {
    if xs == [] then [] else Insert(Sorted(xs[..|xs| - 1]), xs[|xs| - 1])
  }

  function OrderStatistic(xs: seq<nat>, r: nat): nat
    requires 1 <= r <= |xs|
  {
    Sorted(xs)[r - 1]
  }

  // ----- counting does not see order

  lemma {:induction false} BelowConcat(xs: seq<nat>, ys: seq<nat>, bound: nat)
    ensures Below(xs + ys, bound) == Below(xs, bound) + Below(ys, bound)
  {
    if ys == [] {
      assert xs + ys == xs;
    } else {
      BelowConcat(xs, ys[..|ys| - 1], bound);
      assert (xs + ys)[..|xs + ys| - 1] == xs + ys[..|ys| - 1];
    }
  }

  lemma {:induction false} InsertBelow(xs: seq<nat>, x: nat, bound: nat)
    requires Ascending(xs)
    ensures Below(Insert(xs, x), bound) == Below(xs, bound) + if x < bound then 1 else 0
  {
    if xs == [] {
    } else if xs[|xs| - 1] <= x {
      assert (xs + [x])[..|xs|] == xs;
    } else {
      var low := Insert(xs[..|xs| - 1], x);
      InsertBelow(xs[..|xs| - 1], x, bound);
      assert (low + [xs[|xs| - 1]])[..|low|] == low;
    }
  }

  /** Sorting keeps every count, hence every sample with its multiplicity. */
  lemma {:induction false} SortedBelow(xs: seq<nat>, bound: nat)
    ensures Below(Sorted(xs), bound) == Below(xs, bound)
  {
    if xs != [] {
      SortedBelow(xs[..|xs| - 1], bound);
      InsertBelow(Sorted(xs[..|xs| - 1]), xs[|xs| - 1], bound);
    }
  }

  lemma {:induction false} BelowSplit(ys: seq<nat>, bound: nat, k: nat)
    requires k <= |ys|
    requires forall i :: 0 <= i < k ==> ys[i] < bound
    requires forall i :: k <= i < |ys| ==> ys[i] >= bound
    ensures Below(ys, bound) == k
  {
    if ys != [] {
      BelowSplit(ys[..|ys| - 1], bound, if k < |ys| then k else k - 1);
    }
  }

  lemma {:induction false} BelowMonotone(xs: seq<nat>, a: nat, b: nat)
    requires a <= b
    ensures Below(xs, a) <= Below(xs, b)
  {
    if xs != [] {
      BelowMonotone(xs[..|xs| - 1], a, b);
    }
  }

  /** First index at which an ascending sequence reaches `bound`. */
  lemma FirstReaching(ys: seq<nat>, bound: nat) returns (k: nat)
    requires Ascending(ys)
    ensures k <= |ys|
    ensures forall i :: 0 <= i < k ==> ys[i] < bound
    ensures forall i :: k <= i < |ys| ==> ys[i] >= bound
  {
    k := |ys|;
    while k > 0 && ys[k - 1] >= bound
      invariant k <= |ys| && forall i :: k <= i < |ys| ==> ys[i] >= bound
    {
      k := k - 1;
    }
    forall i | 0 <= i < k ensures ys[i] < bound { AscendingOrder(ys, i, k - 1); }
  }

  // ----- sorting and counting define the same statistic

  lemma BelowEntry(ys: seq<nat>, k: nat)
    requires Ascending(ys) && k < |ys|
    ensures Below(ys, ys[k]) <= k
    ensures k < Below(ys, ys[k] + 1)
  {
    var lo := FirstReaching(ys, ys[k]);
    BelowSplit(ys, ys[k], lo);
    var hi := FirstReaching(ys, ys[k] + 1);
    BelowSplit(ys, ys[k] + 1, hi);
  }

  lemma OrderStatisticIsRanked(xs: seq<nat>, r: nat)
    requires 1 <= r <= |xs|
    ensures IsRanked(xs, r, OrderStatistic(xs, r))
  {
    forall bound ensures Below(Sorted(xs), bound) == Below(xs, bound) {
      SortedBelow(xs, bound);
    }
    EntryIsRanked(xs, Sorted(xs), r);
  }

  lemma EntryIsRanked(xs: seq<nat>, ys: seq<nat>, r: nat)
    requires Ascending(ys) && 1 <= r <= |ys|
    requires forall bound :: Below(ys, bound) == Below(xs, bound)
    ensures IsRanked(xs, r, ys[r - 1])
  {
    BelowEntry(ys, r - 1);
  }

  lemma RankedIsUnique(xs: seq<nat>, r: nat, x: nat, y: nat)
    requires IsRanked(xs, r, x) && IsRanked(xs, r, y)
    ensures x == y
  {
    if y < x {
      BelowMonotone(xs, y + 1, x);
    } else if x < y {
      BelowMonotone(xs, x + 1, y);
    }
  }

  lemma OrderStatisticMonotone(xs: seq<nat>, r: nat, s: nat)
    requires 1 <= r <= s <= |xs|
    ensures OrderStatistic(xs, r) <= OrderStatistic(xs, s)
  {
    AscendingOrder(Sorted(xs), r - 1, s - 1);
  }

  /** An order statistic is one of the samples. */
  lemma {:induction false} RankedIsSample(xs: seq<nat>, r: nat, x: nat)
    requires IsRanked(xs, r, x)
    ensures x in xs
  {
    if x != xs[|xs| - 1] {
      var init := xs[..|xs| - 1];
      RankedIsSample(init, Below(init, x + 1), x);
    }
  }

  /** Rotating the samples changes no order statistic. */
  lemma OrderStatisticRotated(a: seq<nat>, b: seq<nat>, r: nat)
    requires 1 <= r <= |a| + |b|
    ensures OrderStatistic(a + b, r) == OrderStatistic(b + a, r)
  {
    var x := OrderStatistic(a + b, r);
    OrderStatisticIsRanked(a + b, r);
    OrderStatisticIsRanked(b + a, r);
    BelowConcat(a, b, x);
    BelowConcat(b, a, x);
    BelowConcat(a, b, x + 1);
    BelowConcat(b, a, x + 1);
    RankedIsUnique(b + a, r, x, OrderStatistic(b + a, r));
  }

  /** The first order statistic is the least sample, and the last one the greatest. */
  lemma LeastAndGreatest(xs: seq<nat>)
    requires xs != []
    ensures OrderStatistic(xs, 1) in xs && OrderStatistic(xs, |xs|) in xs
    ensures forall x :: x in xs ==> OrderStatistic(xs, 1) <= x <= OrderStatistic(xs, |xs|)
  {
    var least, greatest := OrderStatistic(xs, 1), OrderStatistic(xs, |xs|);
    OrderStatisticIsRanked(xs, 1);
    RankedIsSample(xs, 1, least);
    OrderStatisticIsRanked(xs, |xs|);
    RankedIsSample(xs, |xs|, greatest);
    forall x | x in xs ensures least <= x <= greatest {
      Counted(xs, x, least);
      Counted(xs, x, greatest + 1);
    }
  }

  /** A sample is counted exactly by the bounds above it. */
  lemma {:induction false} Counted(xs: seq<nat>, x: nat, bound: nat)
    requires x in xs
    ensures x < bound ==> Below(xs, bound) > 0
    ensures x >= bound ==> Below(xs, bound) < |xs|
  {
    if xs[|xs| - 1] != x {
      Counted(xs[..|xs| - 1], x, bound);
    }
  }
}
