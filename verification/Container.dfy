/** A bundle of submodels switched by a quality value, with a linear crossfade.
    Submodels are arbitrary causal, deterministic processors. */
module Container {
  import opened Basics
  import opened Crossfade

  // ----- construction: sorting and validating the thresholds

  /** A threshold as read from a file. */
  datatype Threshold = Finite(value: real) | NonFinite

  datatype Submodel = Submodel(maxValue: Threshold, model: nat)

  datatype SpecError = Empty | InvalidMaxValue(index: nat) | NotAscending | LastBelowUnity

  /** Thresholds that cannot be compared count as equal. */
  predicate AtMost(a: Threshold, b: Threshold) {
    a.Finite? && b.Finite? ==> a.value <= b.value
  }

  /** Stable insertion, after every entry not above `x`. */
  function Insert(xs: seq<Submodel>, x: Submodel): (ys: seq<Submodel>)
    ensures |ys| == |xs| + 1 && multiset(ys) == multiset(xs) + multiset{x}
  {
    if xs == [] then [x]
    else
      var init, last := xs[..|xs| - 1], xs[|xs| - 1];
      assert xs == init + [last];
      if AtMost(last.maxValue, x.maxValue) then xs + [x] else Insert(init, x) + [last]
  }

  function SortByMax(xs: seq<Submodel>): (ys: seq<Submodel>)
    ensures |ys| == |xs| && multiset(ys) == multiset(xs)
  {
    if xs == [] then []
    else
      assert xs == xs[..|xs| - 1] + [xs[|xs| - 1]];
      Insert(SortByMax(xs[..|xs| - 1]), xs[|xs| - 1])
  }

  ghost predicate AllFinite(xs: seq<Submodel>) {
    forall i :: 0 <= i < |xs| ==> xs[i].maxValue.Finite? && xs[i].maxValue.value >= 0.0
  }

  ghost predicate Sorted(xs: seq<Submodel>) {
    forall i :: 0 < i < |xs| ==> AtMost(xs[i - 1].maxValue, xs[i].maxValue)
  }

  ghost predicate StrictlyAscending(xs: seq<Submodel>)
    requires AllFinite(xs)
  {
    forall i, j :: 0 <= i < j < |xs| ==> xs[i].maxValue.value < xs[j].maxValue.value
  }

  lemma {:induction false} InsertSorted(xs: seq<Submodel>, x: Submodel)
    requires AllFinite(xs + [x]) && Sorted(xs)
    ensures Sorted(Insert(xs, x)) && AllFinite(Insert(xs, x))
    ensures xs != [] ==> Insert(xs, x)[|xs|] == x || Insert(xs, x)[|xs|] == xs[|xs| - 1]
  {
    assert (xs + [x])[|xs|] == x;
    assert forall i :: 0 <= i < |xs| ==> (xs + [x])[i] == xs[i];
    if xs != [] && !AtMost(xs[|xs| - 1].maxValue, x.maxValue) {
      InsertSorted(xs[..|xs| - 1], x);
    }
  }

  lemma {:induction false} SortByMaxSorts(xs: seq<Submodel>)
    requires AllFinite(xs)
    ensures Sorted(SortByMax(xs)) && AllFinite(SortByMax(xs))
  {
    if xs != [] {
      SortByMaxSorts(xs[..|xs| - 1]);
      InsertSorted(SortByMax(xs[..|xs| - 1]), xs[|xs| - 1]);
    }
  }

  /** Sorts the submodels in place and checks them. */
  method ValidateSubmodels(submodels: array<Submodel>) returns (error: Option<SpecError>)
    modifies submodels
    ensures multiset(submodels[..]) == multiset(old(submodels[..]))
    ensures submodels.Length == 0 <==> error == Some(Empty)
    ensures submodels.Length > 0 ==> (!AllFinite(submodels[..]) <==> error.Some? && error.value.InvalidMaxValue?)
    ensures error.Some? && error.value.InvalidMaxValue? ==>
      && error.value.index < submodels.Length && !AllFinite([submodels[error.value.index]])
      && AllFinite(submodels[..error.value.index])
    ensures AllFinite(old(submodels[..])) ==> Sorted(submodels[..]) && AllFinite(submodels[..])
    ensures AllFinite(submodels[..]) && submodels.Length > 0 ==>
      && (error == None <==> StrictlyAscending(submodels[..]) && submodels[submodels.Length - 1].maxValue.value >= 1.0)
      && (error == Some(NotAscending) <==> !StrictlyAscending(submodels[..]))
  {
    if submodels.Length == 0 {
      return Some(Empty);
    }
    ghost var before := submodels[..];
    var sorted := SortByMax(submodels[..]);
    forall i | 0 <= i < submodels.Length { submodels[i] := sorted[i]; }
    assert submodels[..] == sorted;
    if AllFinite(before) { SortByMaxSorts(before); }
    var invalid := FirstInvalid(submodels);
    if invalid.Some? {
      return Some(InvalidMaxValue(invalid.value));
    }
    var ascending := CheckAscending(submodels);
    if !ascending {
      return Some(NotAscending);
    }
    if submodels[submodels.Length - 1].maxValue.value < 1.0 {
      return Some(LastBelowUnity);
    }
    error := None;
  }

  method FirstInvalid(submodels: array<Submodel>) returns (r: Option<nat>)
    ensures r == None <==> AllFinite(submodels[..])
    ensures r.Some? ==> r.value < submodels.Length && !AllFinite([submodels[r.value]]) && AllFinite(submodels[..r.value])
  {
    for i := 0 to submodels.Length
      invariant AllFinite(submodels[..i])
    {
      if submodels[i].maxValue.NonFinite? || submodels[i].maxValue.value < 0.0 {
        assert !AllFinite([submodels[i]]) by { assert [submodels[i]][0] == submodels[i]; }
        assert !AllFinite(submodels[..]) by { assert submodels[..][i] == submodels[i]; }
        return Some(i);
      }
      assert submodels[..i + 1] == submodels[..i] + [submodels[i]];
    }
    assert submodels[..submodels.Length] == submodels[..];
    r := None;
  }

  /** Neighbouring comparisons decide strict ascent. */
  method CheckAscending(submodels: array<Submodel>) returns (ok: bool)
    requires AllFinite(submodels[..])
    ensures ok <==> StrictlyAscending(submodels[..])
  {
    ok := true;
    if submodels.Length == 0 {
      return;
    }
    ghost var xs := submodels[..];
    for i := 1 to submodels.Length
      invariant forall j, k :: 0 <= j < k < i && k < |xs| ==> xs[j].maxValue.value < xs[k].maxValue.value
    {
      assert xs[i - 1].maxValue.Finite? && xs[i].maxValue.Finite?;
      if submodels[i].maxValue.value <= submodels[i - 1].maxValue.value {
        return false;
      }
    }
  }

  // ----- the choice of submodel

  /** Ascending thresholds of a validated container. */
  ghost predicate Ascending(maxValues: seq<real>) {
    forall i, j :: 0 <= i < j < |maxValues| ==> maxValues[i] < maxValues[j]
  }

  /** All thresholds but the last one. */
  function Breakpoints(maxValues: seq<real>): seq<real> {
    if |maxValues| <= 1 then [] else maxValues[..|maxValues| - 1]
  }

  /** How many of `xs` are at most `val`. */
  function CountAtMost(xs: seq<real>, val: real): (c: nat)
    ensures c <= |xs|
  {
    if xs == [] then 0 else CountAtMost(xs[..|xs| - 1], val) + if xs[|xs| - 1] <= val then 1 else 0
  }

  /** The submodel a quality value selects: the number of breakpoints it reaches. */
  function Choice(maxValues: seq<real>, val: real): (c: nat)
    requires maxValues != []
    ensures c < |maxValues|
  {
    CountAtMost(Breakpoints(maxValues), val)
  }

  /** The choice is the first threshold above `val`, or the last submodel. */
  lemma ChoiceExactly(maxValues: seq<real>, val: real, c: nat)
    requires maxValues != [] && Ascending(maxValues) && c < |maxValues|
    ensures c == Choice(maxValues, val) <==>
      && (forall i :: 0 <= i < c ==> maxValues[i] <= val)
      && (c == |maxValues| - 1 || val < maxValues[c])
  {
    var points := Breakpoints(maxValues);
    var cut := FirstAbove(points, val);
    CountIsCut(points, val, cut);
    assert forall i :: 0 <= i < |maxValues| - 1 ==> points[i] == maxValues[i];
    if c < cut {
      assert maxValues[c] == points[c] <= val;
    } else if cut < c {
      assert maxValues[cut] == points[cut] > val;
    }
  }

  lemma FirstAbove(xs: seq<real>, val: real) returns (cut: nat)
    requires Ascending(xs)
    ensures cut <= |xs|
    ensures forall i :: 0 <= i < cut ==> xs[i] <= val
    ensures forall i :: cut <= i < |xs| ==> val < xs[i]
  {
    cut := 0;
    while cut < |xs| && xs[cut] <= val
      invariant cut <= |xs| && forall i :: 0 <= i < cut ==> xs[i] <= val
    {
      cut := cut + 1;
    }
  }

  lemma {:induction false} CountIsCut(xs: seq<real>, val: real, cut: nat)
    requires cut <= |xs|
    requires forall i :: 0 <= i < cut ==> xs[i] <= val
    requires forall i :: cut <= i < |xs| ==> val < xs[i]
    ensures CountAtMost(xs, val) == cut
  {
    if xs != [] {
      CountIsCut(xs[..|xs| - 1], val, if cut < |xs| then cut else cut - 1);
    }
  }

  // ----- the crossfade controller

  /** What decides which submodels sound: the active one, a pending one if any, and
      how far the fade between them has come. */
  datatype Ctl = Ctl(active: nat, pending: Option<nat>, elapsed: nat) {
    /** Where the controller is heading. */
    function Target(): nat {
      if pending.Some? then pending.value else active
    }
  }

  /** A request for submodel `next`, whose reset succeeds or not. */
  function Request(c: Ctl, next: nat, resetOk: bool): Ctl {
    if next == c.Target() then c
    else
      var settled := if c.pending.Some? then c.(active := c.pending.value) else c;
      if resetOk then settled.(pending := Some(next), elapsed := 0) else settled
  }

  /** A new request whose reset succeeds fades from where the controller was heading, and
      from the start; one whose reset fails makes that place the active one and leaves
      what was pending, and how far it had come, as they were. */
  lemma RequestExactly(c: Ctl, next: nat, resetOk: bool)
    ensures next == c.Target() ==> Request(c, next, resetOk) == c
    ensures next != c.Target() && resetOk ==> Request(c, next, resetOk) == Ctl(c.Target(), Some(next), 0)
    ensures next != c.Target() && !resetOk ==> Request(c, next, resetOk) == Ctl(c.Target(), c.pending, c.elapsed)
  {
  }

  /** A block of `n` frames; blocks longer than the scratch buffer do not advance the fade. */
  function Frames(c: Ctl, n: nat, duration: nat, scratch: nat): Ctl {
    if c.pending == None || n > scratch then c
    else if c.elapsed + n >= duration then Ctl(c.pending.value, None, 0)
    else c.(elapsed := c.elapsed + n)
  }

  /** Weight of the pending submodel in a block. */
  function Weight(c: Ctl, duration: nat): (t: real)
    ensures 0.0 <= t <= 1.0
  {
    if duration == 0 then 1.0 else Progress(c.elapsed, duration)
  }

  /** A fade between a submodel and itself. */
  predicate SelfFade(c: Ctl) {
    c.pending == Some(c.active)
  }

  datatype Event = Asked(next: nat, resetOk: bool) | Played(n: nat, duration: nat, scratch: nat)

  function Handle(c: Ctl, e: Event): Ctl {
    match e
    case Asked(next, ok) => Request(c, next, ok)
    case Played(n, duration, scratch) => Frames(c, n, duration, scratch)
  }

  function HandleAll(c: Ctl, es: seq<Event>): Ctl {
    if es == [] then c else Handle(HandleAll(c, es[..|es| - 1]), es[|es| - 1])
  }

  /** The last request honoured: one whose reset succeeded, or that needed none. */
  ghost function Goal(c: Ctl, es: seq<Event>): nat {
    if es == [] then c.Target() else
      var init, e := es[..|es| - 1], es[|es| - 1];
      if e.Asked? && e.resetOk then e.next else Goal(c, init)
  }

  /** Over any mix of requests and blocks the controller heads for the last honoured
      request, however many fades it interrupted. */
  lemma {:induction false} TracksGoal(c: Ctl, es: seq<Event>)
    ensures HandleAll(c, es).Target() == Goal(c, es)
  {
    if es != [] {
      TracksGoal(c, es[..|es| - 1]);
    }
  }

  // ----- fades between a submodel and itself

  /** The last event asks for something other than the target, during a fade, and fails. */
  ghost predicate FailsLast(c: Ctl, es: seq<Event>) {
    && es != []
    && var init, e := es[..|es| - 1], es[|es| - 1];
       e.Asked? && !e.resetOk && e.next != Goal(c, init) && HandleAll(c, init).pending.Some?
  }

  ghost predicate FailsAt(c: Ctl, es: seq<Event>, i: nat) {
    i < |es| && FailsLast(c, es[..i + 1])
  }

  /** After the last event a fade is running, and if it was a request, it asked for the target. */
  ghost predicate QuietLast(c: Ctl, es: seq<Event>)
    requires es != []
  {
    var init, e := es[..|es| - 1], es[|es| - 1];
    HandleAll(c, es).pending.Some? && (e.Asked? ==> e.next == Goal(c, init))
  }

  /** From event `from` on nothing but the target is asked for, and no fade ends. */
  ghost predicate Undisturbed(c: Ctl, es: seq<Event>, from: nat) {
    |es| <= from || (QuietLast(c, es) && Undisturbed(c, es[..|es| - 1], from))
  }

  /** A request during a fade failed, and nothing has disturbed the result since; or the
      run started from a self-fade and nothing has disturbed that. */
  ghost predicate Stuck(c: Ctl, es: seq<Event>) {
    || (SelfFade(c) && Undisturbed(c, es, 0))
    || exists i: nat :: FailsAt(c, es, i) && Undisturbed(c, es, i + 1)
  }

  /** What one event does to a self-fade. */
  lemma OneEvent(c: Ctl, e: Event)
    ensures SelfFade(Handle(c, e)) <==>
      || (SelfFade(c) && Handle(c, e).pending.Some? && (e.Asked? ==> e.next == c.Target()))
      || (e.Asked? && !e.resetOk && e.next != c.Target() && c.pending.Some?)
  {
  }

  lemma FailsEarlier(c: Ctl, es: seq<Event>, i: nat)
    requires es != [] && i < |es| - 1
    ensures FailsAt(c, es, i) <==> FailsAt(c, es[..|es| - 1], i)
  {
    assert es[..i + 1] == es[..|es| - 1][..i + 1];
  }

  lemma StuckStep(c: Ctl, es: seq<Event>)
    requires es != []
    ensures Stuck(c, es) <==> (Stuck(c, es[..|es| - 1]) && QuietLast(c, es)) || FailsLast(c, es)
  {
    var n, init := |es| - 1, es[..|es| - 1];
    assert es[..n + 1] == es;
    if i: nat :| FailsAt(c, es, i) && Undisturbed(c, es, i + 1) {
      if i < n {
        FailsEarlier(c, es, i);
      }
    }
    if i: nat :| FailsAt(c, init, i) && Undisturbed(c, init, i + 1) {
      FailsEarlier(c, es, i);
    }
    if FailsLast(c, es) {
      assert FailsAt(c, es, n) && Undisturbed(c, es, n + 1);
    }
  }

  /** Over any run of requests and blocks, a submodel ends up fading against itself
      exactly in those cases. */
  lemma {:induction false} SelfFadeExactly(c: Ctl, es: seq<Event>)
    ensures SelfFade(HandleAll(c, es)) <==> Stuck(c, es)
  {
    if es != [] {
      var init := es[..|es| - 1];
      SelfFadeExactly(c, init);
      TracksGoal(c, init);
      StuckStep(c, es);
      OneEvent(HandleAll(c, init), es[|es| - 1]);
    }
  }

  /** Frames of the blocks that fit the scratch buffer. */
  ghost function FittingTotal(ns: seq<nat>, scratch: nat): nat {
    if ns == [] then 0 else FittingTotal(ns[..|ns| - 1], scratch) + if ns[|ns| - 1] <= scratch then ns[|ns| - 1] else 0
  }

  ghost function Play(c: Ctl, ns: seq<nat>, duration: nat, scratch: nat): Ctl {
    if ns == [] then c else Frames(Play(c, ns[..|ns| - 1], duration, scratch), ns[|ns| - 1], duration, scratch)
  }

  /** Without new requests, fitting blocks add up until the fade is done, and then the
      target is the active submodel and nothing is pending. Other blocks do not count. */
  lemma {:induction false} Converges(c: Ctl, ns: seq<nat>, duration: nat, scratch: nat)
    ensures Play(c, ns, duration, scratch).Target() == c.Target()
    ensures c.pending == None || (forall i :: 0 <= i < |ns| ==> ns[i] > scratch) ==> Play(c, ns, duration, scratch) == c
    ensures c.pending.Some? && (exists i :: 0 <= i < |ns| && ns[i] <= scratch) ==>
      if c.elapsed + FittingTotal(ns, scratch) >= duration then Play(c, ns, duration, scratch) == Ctl(c.Target(), None, 0)
      else Play(c, ns, duration, scratch) == c.(elapsed := c.elapsed + FittingTotal(ns, scratch))
  {
    if ns != [] {
      var init, last := ns[..|ns| - 1], ns[|ns| - 1];
      Converges(c, init, duration, scratch);
      if forall i :: 0 <= i < |init| ==> init[i] > scratch {
        NoneFitting(init, scratch);
      } else {
        var i :| 0 <= i < |init| && init[i] <= scratch;
        assert ns[i] <= scratch;
      }
    }
  }

  lemma {:induction false} NoneFitting(ns: seq<nat>, scratch: nat)
    requires forall i :: 0 <= i < |ns| ==> ns[i] > scratch
    ensures FittingTotal(ns, scratch) == 0
  {
    if ns != [] {
      NoneFitting(ns[..|ns| - 1], scratch);
    }
  }

  /** Until the fade is over, the weight is the fraction of its frames that have passed. */
  lemma WeightIsProportion(c: Ctl, duration: nat)
    ensures if c.elapsed >= duration then Weight(c, duration) == 1.0
            else Weight(c, duration) * duration as real == c.elapsed as real
  {
    if 0 < duration <= c.elapsed {
      QuotientMonotone(duration as real, c.elapsed as real, duration as real);
    } else if duration > 0 {
      QuotientMonotone(c.elapsed as real, duration as real, duration as real);
    }
  }

  lemma WeightStep(c: Ctl, n: nat, duration: nat, scratch: nat)
    requires c.pending.Some? && Frames(c, n, duration, scratch).pending.Some?
    ensures Weight(c, duration) <= Weight(Frames(c, n, duration, scratch), duration)
  {
    if duration > 0 {
      ProgressMonotone(c.elapsed, Frames(c, n, duration, scratch).elapsed, duration);
    }
  }

  /** Through a whole fade, fitting blocks or not, the weight never decreases; it starts
      at zero. */
  lemma {:induction false} WeightGrows(c: Ctl, ns: seq<nat>, more: seq<nat>, duration: nat, scratch: nat)
    requires Play(c, ns + more, duration, scratch).pending.Some?
    ensures Play(c, ns, duration, scratch).pending.Some?
    ensures Weight(Play(c, ns, duration, scratch), duration) <= Weight(Play(c, ns + more, duration, scratch), duration)
    ensures c.elapsed == 0 && duration > 0 ==> Weight(Play(c, [], duration, scratch), duration) == 0.0
    decreases |more|
  {
    if more == [] {
      assert ns + more == ns;
    } else {
      var n := |more| - 1;
      assert (ns + more)[..|ns| + n] == ns + more[..n];
      WeightGrows(c, ns, more[..n], duration, scratch);
      WeightStep(Play(c, ns + more[..n], duration, scratch), more[n], duration, scratch);
    }
  }

  // ----- the container

  /** Output of a causal submodel on `block` after it has heard `past`. */
  function Render(response: (nat, seq<real>) -> real, i: nat, past: seq<real>, block: seq<real>): (outs: seq<real>)
    ensures |outs| == |block|
  {
    seq(|block|, (k: int) requires 0 <= k < |block| => response(i, past + block[..k + 1]))
  }

  function Hear(heard: seq<seq<real>>, i: nat, block: seq<real>): (h: seq<seq<real>>)
    requires i < |heard|
    ensures |h| == |heard|
  {
    heard[i := heard[i] + block]
  }

  /** In a self-fade, where the active submodel is also the pending one, it hears every
      block that fits the scratch buffer twice. */
  lemma SelfFadeHearsTwice(heard: seq<seq<real>>, c: Ctl, block: seq<real>)
    requires SelfFade(c) && c.active < |heard|
    ensures var after := Hear(Hear(heard, c.pending.value, block), c.active, block);
      && after[c.active] == heard[c.active] + block + block
      && forall i :: 0 <= i < |heard| && i != c.active ==> after[i] == heard[i]
  {
  }

  /** Cutting a block in two changes neither what a submodel plays nor what it remembers. */
  lemma RenderSplits(response: (nat, seq<real>) -> real, heard: seq<seq<real>>, i: nat, a: seq<real>, b: seq<real>)
    requires i < |heard|
    ensures Render(response, i, heard[i], a + b) ==
      Render(response, i, heard[i], a) + Render(response, i, Hear(heard, i, a)[i], b)
    ensures Hear(heard, i, a + b) == Hear(Hear(heard, i, a), i, b)
    ensures forall j :: 0 <= j < |heard| && j != i ==> Hear(heard, i, a)[j] == heard[j]
  {
    var whole, parts := Render(response, i, heard[i], a + b), Render(response, i, heard[i], a) + Render(response, i, heard[i] + a, b);
    forall k | 0 <= k < |a + b| ensures whole[k] == parts[k] {
      if k < |a| {
        assert (a + b)[..k + 1] == a[..k + 1];
      } else {
        assert heard[i] + (a + b)[..k + 1] == heard[i] + a + b[..k - |a| + 1];
      }
    }
    assert heard[i] + (a + b) == heard[i] + a + b;
  }

  /** Every sample moves from the first block towards the second in proportion to the weight. */
  function Blend(xs: seq<real>, ys: seq<real>, t: real): (zs: seq<real>)
    requires |xs| == |ys|
    ensures |zs| == |xs|
    ensures forall k :: 0 <= k < |zs| ==> zs[k] - xs[k] == t * (ys[k] - xs[k])
  {
    seq(|xs|, (k: int) requires 0 <= k < |xs| => (ys[k] - xs[k]) * t + xs[k])
  }

  /** So weight 0 plays the first block, weight 1 the second, and any weight between them
      stays between them. */
  lemma BlendEnds(xs: seq<real>, ys: seq<real>, t: real)
    requires |xs| == |ys|
    ensures t == 0.0 ==> Blend(xs, ys, t) == xs
    ensures t == 1.0 ==> Blend(xs, ys, t) == ys
    ensures 0.0 <= t <= 1.0 ==> forall k :: 0 <= k < |xs| ==>
      if xs[k] <= ys[k] then xs[k] <= Blend(xs, ys, t)[k] <= ys[k] else ys[k] <= Blend(xs, ys, t)[k] <= xs[k]
  {
    if 0.0 <= t <= 1.0 {
      forall k | 0 <= k < |xs|
        ensures if xs[k] <= ys[k] then xs[k] <= Blend(xs, ys, t)[k] <= ys[k] else ys[k] <= Blend(xs, ys, t)[k] <= xs[k]
      {
        Between(xs[k], ys[k], t, Blend(xs, ys, t)[k]);
      }
    }
  }

  lemma Between(x: real, y: real, t: real, z: real)
    requires 0.0 <= t <= 1.0 && z - x == t * (y - x)
    ensures if x <= y then x <= z <= y else y <= z <= x
  {
    if x <= y {
      Towards(z - x, y - x, t);
    } else {
      Towards(x - z, x - y, t);
    }
  }

  lemma Towards(step: real, distance: real, t: real)
    requires 0.0 <= t <= 1.0 && distance >= 0.0 && step == t * distance
    ensures 0.0 <= step <= distance
  {
    RealProductMonotone(t, 1.0, distance);
  }

  class ContainerModel {
    const maxValues: seq<real>
    const response: (nat, seq<real>) -> real

    /** What each submodel has heard since its last reset. */
    var heard: seq<seq<real>>
    var activeIndex: nat
    var pendingIndex: Option<nat>
    var crossfadeElapsed: nat
    var crossfadeDuration: nat
    var scratchLen: nat

    ghost predicate Valid()
      reads this
    {
      && maxValues != [] && Ascending(maxValues) && |heard| == |maxValues|
      && activeIndex < |maxValues|
      && (pendingIndex.Some? ==> pendingIndex.value < |maxValues|)
    }

    function Control(): Ctl
      reads this
    {
      Ctl(activeIndex, pendingIndex, crossfadeElapsed)
    }

    constructor (maxValues: seq<real>, response: (nat, seq<real>) -> real, sampleRate: nat, scratchLen: nat)
      requires maxValues != [] && Ascending(maxValues)
      ensures Valid() && Control() == Ctl(|maxValues| - 1, None, 0)
      ensures this.maxValues == maxValues && this.response == response
      ensures crossfadeDuration == CrossfadeSamples(sampleRate) && this.scratchLen == scratchLen
      ensures heard == seq(|maxValues|, _ => [])
    {
      this.maxValues, this.response := maxValues, response;
      heard := seq(|maxValues|, _ => []);
      activeIndex, pendingIndex, crossfadeElapsed := |maxValues| - 1, None, 0;
      crossfadeDuration := CrossfadeSamples(sampleRate);
      this.scratchLen := scratchLen;
    }

    /** Runs one submodel, which remembers the block. */
    method RunSubmodel(i: nat, block: seq<real>) returns (outs: seq<real>)
      requires Valid() && i < |maxValues|
      modifies this`heard
      ensures Valid() && heard == Hear(old(heard), i, block)
      ensures outs == Render(response, i, old(heard)[i], block)
    {
      outs := Render(response, i, heard[i], block);
      heard := heard[i := heard[i] + block];
    }

    /** Processes the common length of input and output. During a crossfade both
        submodels hear the block and the output is their blend; a block too long for
        the scratch buffer is played by the active submodel alone. */
    method Process(input: seq<real>, output: array<real>)
      requires Valid()
      modifies this`heard, this`activeIndex, this`pendingIndex, this`crossfadeElapsed, output
      ensures Valid()
      ensures var n := Min(|input|, output.Length);
        && Control() == Frames(old(Control()), n, crossfadeDuration, scratchLen)
        && (forall k :: n <= k < output.Length ==> output[k] == old(output[k]))
        && (old(pendingIndex) == None || n > scratchLen ==>
              && output[..n] == Render(response, old(activeIndex), old(heard)[old(activeIndex)], input[..n])
              && heard == Hear(old(heard), old(activeIndex), input[..n]))
        && (old(pendingIndex).Some? && n <= scratchLen ==>
              var a, p, h := old(activeIndex), old(pendingIndex).value, Hear(old(heard), old(pendingIndex).value, input[..n]);
              && output[..n] == Blend(Render(response, a, h[a], input[..n]), Render(response, p, old(heard)[p], input[..n]),
                                      Weight(old(Control()), crossfadeDuration))
              && heard == Hear(h, a, input[..n]))
    {
      var n := Min(|input|, output.Length);
      var block := input[..n];
      if pendingIndex.None? || n > scratchLen {
        var outs := RunSubmodel(activeIndex, block);
        Store(outs, output);
        return;
      }
      var scratch := RunSubmodel(pendingIndex.value, block);
      var outs := RunSubmodel(activeIndex, block);
      var t := Weight(Control(), crossfadeDuration);
      Store(Blend(outs, scratch, t), output);
      crossfadeElapsed := crossfadeElapsed + n;
      if crossfadeElapsed >= crossfadeDuration {
        activeIndex, pendingIndex, crossfadeElapsed := pendingIndex.value, None, 0;
      }
    }

    /** First threshold above `val`, or the last submodel. */
    method Select(val: real) returns (next: nat)
      requires Valid()
      ensures next == Choice(maxValues, val)
    {
      next := |maxValues| - 1;
      for i := 0 to |maxValues|
        invariant next == |maxValues| - 1
        invariant forall j :: 0 <= j < i ==> maxValues[j] <= val
      {
        if val < maxValues[i] {
          next := i;
          CutAt(val, i);
          return;
        }
      }
      CountIsCut(Breakpoints(maxValues), val, |maxValues| - 1);
    }

    lemma CutAt(val: real, i: nat)
      requires Valid() && i < |maxValues| && val < maxValues[i]
      requires forall j :: 0 <= j < i ==> maxValues[j] <= val
      ensures Choice(maxValues, val) == i
    {
      CountIsCut(Breakpoints(maxValues), val, i);
    }

    /** Requests a quality. `resetOk` is whether the chosen submodel's reset succeeds. */
    method SetSlimmableSize(val: real, resetOk: bool) returns (resetFailed: bool)
      requires Valid()
      modifies this`heard, this`activeIndex, this`pendingIndex, this`crossfadeElapsed
      ensures Valid() && Control() == Request(old(Control()), Choice(maxValues, val), resetOk)
      ensures resetFailed <==> Choice(maxValues, val) != old(Control()).Target() && !resetOk
      ensures heard == if Choice(maxValues, val) != old(Control()).Target() && resetOk
                       then old(heard)[Choice(maxValues, val) := []] else old(heard)
    {
      resetFailed := false;
      var next := Select(val);
      if next == activeIndex && pendingIndex.None? {
        return;
      }
      if pendingIndex == Some(next) {
        return;
      }
      if pendingIndex.Some? {
        activeIndex := pendingIndex.value;
      }
      if !resetOk {
        return true;
      }
      heard := heard[next := []];
      pendingIndex := Some(next);
      crossfadeElapsed := 0;
    }
  }

  function Thresholds(xs: seq<Submodel>): (ts: seq<real>)
    requires forall i :: 0 <= i < |xs| ==> xs[i].maxValue.Finite?
    ensures |ts| == |xs| && forall i :: 0 <= i < |xs| ==> ts[i] == xs[i].maxValue.value
  {
    seq(|xs|, (i: int) requires 0 <= i < |xs| => xs[i].maxValue.value)
  }

  /** Validates the submodels and builds a container over them, in ascending order. */
  method NewContainer(submodels: array<Submodel>, response: (nat, seq<real>) -> real, sampleRate: nat, scratchLen: nat)
    returns (r: Result<ContainerModel, SpecError>)
    modifies submodels
    ensures multiset(submodels[..]) == multiset(old(submodels[..]))
    ensures r.Ok? <==>
      && submodels.Length > 0
      && (forall i :: 0 <= i < submodels.Length ==> submodels[i].maxValue.Finite? && submodels[i].maxValue.value >= 0.0)
      && (forall i, j :: 0 <= i < j < submodels.Length ==> submodels[i].maxValue.value < submodels[j].maxValue.value)
      && submodels[submodels.Length - 1].maxValue.value >= 1.0
    ensures old(AllFinite(submodels[..])) ==>
      forall i {:trigger submodels[i]} :: 0 < i < submodels.Length ==>
        submodels[i].maxValue.Finite? && submodels[i - 1].maxValue.Finite?
        && submodels[i - 1].maxValue.value <= submodels[i].maxValue.value
    ensures r.Ok? ==>
      && fresh(r.value) && r.value.Valid() && r.value.maxValues == Thresholds(submodels[..])
      && r.value.Control() == Ctl(submodels.Length - 1, None, 0)
      && forall i: nat, past: seq<real> :: i < submodels.Length ==> r.value.response(i, past) == response(submodels[i].model, past)
  {
    var error := ValidateSubmodels(submodels);
    assert forall i :: 0 <= i < submodels.Length ==> submodels[..][i] == submodels[i];
    if error.Some? {
      return Err(error.value);
    }
    var order := submodels[..];
    var model := new ContainerModel(
      Thresholds(order), (i: nat, past: seq<real>) => if i < |order| then response(order[i].model, past) else 0.0,
      sampleRate, scratchLen);
    r := Ok(model);
  }

  method Store(outs: seq<real>, output: array<real>)
    requires |outs| <= output.Length
    modifies output
    ensures output[..|outs|] == outs
    ensures forall k :: |outs| <= k < output.Length ==> output[k] == old(output[k])
  {
    forall k | 0 <= k < |outs| { output[k] := outs[k]; }
  }
}
