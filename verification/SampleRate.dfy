/** Resolution of the declared sample rate of a tree of nested models, under depth
    and size limits shared across the whole tree. */
module SampleRate {
  import opened Basics

  datatype Error =
    | InvalidSampleRate
    | SequentialDepthExceeded
    | SequentialChildrenExceeded
    | ContainersTooDeep
    | SubmodelsExceeded
    | InvalidEnvelope
    | RateMismatch

  const MAX_SEQUENTIAL_DEPTH: nat := 8
  const MAX_SEQUENTIAL_TOTAL_CHILDREN: nat := 64
  const MAX_CONTAINER_DEPTH: nat := 4
  const MAX_SUBMODELS: nat := 8

  /** The `sample_rate` member of a node: absent or null, not a number, or a number. */
  datatype Declared = Missing | NotANumber | NonFinite | Number(num: real)

  /** A node of the model graph. An absent child array behaves like an empty one; a
      container entry may lack its `model` member. */
  datatype Node =
    | Plain(declared: Declared)
    | Sequential(declared: Declared, models: seq<Node>)
    | Bundle(declared: Declared, submodels: seq<Entry>)

  datatype Entry = NoModel | Entry(model: Node)

  // ----- declared rates

  /** Integers below 2^32 that survive the round trip through a 24-bit significand. */
  predicate ExactInF32(n: nat) {
    n < 0x100_0000 || (n % 2 == 0 && ExactInF32(n / 2))
  }

  predicate Representable(num: real) {
    && num.Floor as real == num && 1 <= num.Floor <= 0xFFFF_FFFF && ExactInF32(num.Floor)
  }

  function ReadDeclaredRate(d: Declared): Result<Option<real>, Error> {
    match d
    case Missing => Ok(None)
    case NotANumber | NonFinite => Err(InvalidSampleRate)
    case Number(num) =>
      if num <= 0.0 then Ok(None)
      else if Representable(num) then Ok(Some(num))
      else Err(InvalidSampleRate)
  }

  /** The integers below 2^32 that are a 24-bit significand times a power of two. */
  ghost predicate IsSingle(num: real) {
    num < 4294967296.0 && exists m: nat, e: nat :: IsProduct(num, m, e)
  }

  ghost predicate IsProduct(num: real, m: nat, e: nat) {
    m < 0x100_0000 && num == (m * Pow2(e)) as real
  }

  lemma {:induction false} SignificandOf(n: nat) returns (m: nat, e: nat)
    requires ExactInF32(n)
    ensures m < 0x100_0000 && n == m * Pow2(e)
  {
    if n < 0x100_0000 {
      m, e := n, 0;
    } else {
      m, e := SignificandOf(n / 2);
      assert m * (2 * Pow2(e)) == 2 * (m * Pow2(e));
      e := e + 1;
    }
  }

  lemma {:induction false} ProductIsExact(m: nat, e: nat)
    requires m < 0x100_0000
    ensures ExactInF32(m * Pow2(e))
  {
    if e > 0 {
      ProductIsExact(m, e - 1);
      var half := m * Pow2(e - 1);
      assert m * Pow2(e) == 2 * half;
      assert 2 * half % 2 == 0 && 2 * half / 2 == half;
    }
  }

  /** A positive number is accepted exactly if it is such an integer, and then unchanged;
      zero and negative numbers mean that no rate is known. */
  lemma AcceptedRatesExactly(num: real)
    ensures ReadDeclaredRate(Number(num)) ==
      if num <= 0.0 then Ok(None) else if IsSingle(num) then Ok(Some(num)) else Err(InvalidSampleRate)
  {
    if num > 0.0 {
      if Representable(num) {
        var m, e := SignificandOf(num.Floor);
        assert IsProduct(num, m, e);
      }
      if IsSingle(num) {
        var m: nat, e: nat :| IsProduct(num, m, e);
        ProductIsExact(m, e);
        assert num.Floor == m * Pow2(e);
      }
    }
  }

  // ----- what resolution should mean, without traversal order

  ghost function AsSet(r: Option<real>): set<real> {
    if r.Some? then {r.value} else {}
  }

  ghost function Own(d: Declared): set<real> {
    if ReadDeclaredRate(d).Ok? then AsSet(ReadDeclaredRate(d).value) else {}
  }

  /** Every rate declared anywhere in the tree. */
  ghost function Rates(n: Node): set<real>
    decreases n, 1
  {
    Own(n.declared) +
    match n
    case Plain(_) => {}
    case Sequential(_, models) => RatesOf(models)
    case Bundle(_, submodels) => RatesOfEntries(submodels)
  }

  ghost function RatesOf(ms: seq<Node>): set<real>
    decreases ms, 0
  {
    if ms == [] then {} else RatesOf(ms[..|ms| - 1]) + Rates(ms[|ms| - 1])
  }

  ghost function RatesOfEntries(es: seq<Entry>): set<real>
    decreases es, 0
  {
    if es == [] then {} else
      RatesOfEntries(es[..|es| - 1]) + RatesOfEntry(es[|es| - 1])
  }

  ghost function RatesOfEntry(e: Entry): set<real>
    decreases e, 0
  {
    if e.Entry? then Rates(e.model) else {}
  }

  /** Children of sequential nodes, counted over the whole tree. */
  ghost function SequentialChildren(n: Node): nat
    decreases n, 1
  {
    match n
    case Plain(_) => 0
    case Sequential(_, models) => |models| + ChildrenOf(models)
    case Bundle(_, submodels) => ChildrenOfEntries(submodels)
  }

  ghost function ChildrenOf(ms: seq<Node>): nat
    decreases ms, 0
  {
    if ms == [] then 0 else ChildrenOf(ms[..|ms| - 1]) + SequentialChildren(ms[|ms| - 1])
  }

  ghost function ChildrenOfEntries(es: seq<Entry>): nat
    decreases es, 0
  {
    if es == [] then 0 else
      ChildrenOfEntries(es[..|es| - 1]) + ChildrenOfEntry(es[|es| - 1])
  }

  ghost function ChildrenOfEntry(e: Entry): nat
    decreases e, 0
  {
    if e.Entry? then SequentialChildren(e.model) else 0
  }

  /** Below `seqs` sequential and `bundles` container nodes, the tree keeps both depth
      limits, the submodel limit, complete entries and valid rates. */
  ghost predicate WellFormed(n: Node, seqs: nat, bundles: nat)
    decreases n, 1
  {
    && ReadDeclaredRate(n.declared).Ok?
    && match n
       case Plain(_) => true
       case Sequential(_, models) =>
         seqs + 1 <= 8 && AllWellFormed(models, seqs + 1, bundles)
       case Bundle(_, submodels) =>
         bundles + 1 <= 5 && |submodels| <= 8 && EntriesWellFormed(submodels, seqs, bundles + 1)
  }

  ghost predicate AllWellFormed(ms: seq<Node>, seqs: nat, bundles: nat)
    decreases ms, 0
  {
    ms == [] || (AllWellFormed(ms[..|ms| - 1], seqs, bundles) && WellFormed(ms[|ms| - 1], seqs, bundles))
  }

  ghost predicate EntriesWellFormed(es: seq<Entry>, seqs: nat, bundles: nat)
    decreases es, 0
  {
    es == [] ||
    (EntriesWellFormed(es[..|es| - 1], seqs, bundles) && EntryWellFormed(es[|es| - 1], seqs, bundles))
  }

  ghost predicate EntryWellFormed(e: Entry, seqs: nat, bundles: nat)
    decreases e, 0
  {
    e.Entry? && WellFormed(e.model, seqs, bundles)
  }

  ghost predicate Consistent(rs: set<real>) {
    |rs| <= 1
  }

  lemma SubsetSize(a: set<real>, b: set<real>)
    requires a <= b
    ensures |a| <= |b|
  {
    assert a + (b - a) == b && a * (b - a) == {};
    assert |a + (b - a)| == |a| + |b - a| - |a * (b - a)|;
  }

  /** What there is to know about a tree, or about some of a node's children: whether
      its shape is legal, how many sequential children it has, and its rates. */
  datatype Account = Account(legal: bool, children: nat, rates: set<real>)

  ghost function OfNode(n: Node, seqs: nat, bundles: nat): Account {
    Account(WellFormed(n, seqs, bundles), SequentialChildren(n), Rates(n))
  }

  ghost function OfEntry(e: Entry, seqs: nat, bundles: nat): Account {
    Account(EntryWellFormed(e, seqs, bundles), ChildrenOfEntry(e), RatesOfEntry(e))
  }

  /** Children of a sequential node, together with the node's own rate. */
  ghost function OfModels(ms: seq<Node>, own: Option<real>, seqs: nat, bundles: nat): Account {
    Account(AllWellFormed(ms, seqs, bundles), |ms| + ChildrenOf(ms), AsSet(own) + RatesOf(ms))
  }

  ghost function OfEntries(es: seq<Entry>, own: Option<real>, seqs: nat, bundles: nat): Account {
    Account(EntriesWellFormed(es, seqs, bundles), ChildrenOfEntries(es), AsSet(own) + RatesOfEntries(es))
  }

  /** One more child, itself counted if `extra` is 1. */
  ghost function Plus(a: Account, b: Account, extra: nat): Account {
    Account(a.legal && b.legal, a.children + extra + b.children, a.rates + b.rates)
  }

  ghost function After(resolved: Option<real>, b: Account): Account {
    b.(rates := AsSet(resolved) + b.rates)
  }

  /** `a` is part of `whole`. */
  ghost predicate PartOf(a: Account, whole: Account) {
    (whole.legal ==> a.legal) && a.children <= whole.children && a.rates <= whole.rates
  }

  /** What a traversal may return, out of a budget of which `used` was spent before and
      `after` is spent now. It succeeds exactly when the shape is legal, the budget
      suffices and at most one rate is declared, and then returns that rate; a mismatch
      or an exhausted budget is never reported falsely. */
  ghost predicate Settled(r: Result<Option<real>, Error>, a: Account, used: nat, after: nat) {
    && (r.Ok? <==> a.legal && used + a.children <= 64 && Consistent(a.rates))
    && (r.Ok? ==> AsSet(r.value) == a.rates && after == used + a.children)
    && (r == Err(RateMismatch) ==> !Consistent(a.rates))
    && (r == Err(SequentialChildrenExceeded) ==> used + a.children > 64)
  }

  /** A child's outcome extends the outcome of the ones before it. */
  lemma SettledThen(
    resolved: Option<real>, a: Account, used: nat, middle: nat, r: Result<Option<real>, Error>, b: Account, extra: nat, after: nat
  )
    requires Settled(Ok(resolved), a, used, middle)
    requires Settled(r, After(resolved, b), middle + extra, after)
    ensures Settled(r, Plus(a, b, extra), used, after)
  {
  }

  /** A failure on a part is a failure on the whole. */
  lemma SettledEarly(r: Result<Option<real>, Error>, a: Account, used: nat, after: nat, whole: Account)
    requires r.Err? && Settled(r, a, used, after) && PartOf(a, whole)
    ensures Settled(r, whole, used, after)
  {
    SubsetSize(a.rates, whole.rates);
  }

  // ----- paths, and what an error says about one

  ghost predicate IsChild(n: Node, child: Node) {
    || (n.Sequential? && child in n.models)
    || (n.Bundle? && Entry(child) in n.submodels)
  }

  /** A walk from the root towards the leaves. */
  ghost predicate IsPath(path: seq<Node>) {
    forall k :: 0 < k < |path| ==> IsChild(path[k - 1], path[k])
  }

  function CountSequential(path: seq<Node>): nat {
    if path == [] then 0 else (if path[0].Sequential? then 1 else 0) + CountSequential(path[1..])
  }

  function CountBundles(path: seq<Node>): nat {
    if path == [] then 0 else (if path[0].Bundle? then 1 else 0) + CountBundles(path[1..])
  }

  lemma Prepend(n: Node, path: seq<Node>)
    requires path != [] && IsPath(path) && IsChild(n, path[0])
    ensures IsPath([n] + path)
    ensures CountSequential([n] + path) == (if n.Sequential? then 1 else 0) + CountSequential(path)
    ensures CountBundles([n] + path) == (if n.Bundle? then 1 else 0) + CountBundles(path)
  {
    assert ([n] + path)[1..] == path;
  }

  /** The path has what the error complains about: at its last node, or along it. The two
      errors about the whole tree name no path. */
  ghost predicate PathBlames(path: seq<Node>, seqs: nat, bundles: nat, e: Error) {
    && path != [] && IsPath(path)
    && var last := path[|path| - 1];
       match e
       case InvalidSampleRate => ReadDeclaredRate(last.declared).Err?
       case SequentialDepthExceeded => seqs + CountSequential(path) > 8
       case ContainersTooDeep => bundles + CountBundles(path) > 5
       case SubmodelsExceeded => last.Bundle? && |last.submodels| > 8
       case InvalidEnvelope => last.Bundle? && NoModel in last.submodels
       case SequentialChildrenExceeded | RateMismatch => true
  }

  /** Some path from the node has it. */
  ghost predicate Blamed(n: Node, seqs: nat, bundles: nat, e: Error) {
    exists path :: PathBlames(path, seqs, bundles, e) && path[0] == n
  }

  lemma BlamedHere(n: Node, seqs: nat, bundles: nat, e: Error)
    requires match e
      case InvalidSampleRate => ReadDeclaredRate(n.declared).Err?
      case SequentialDepthExceeded => n.Sequential? && seqs + 1 > 8
      case ContainersTooDeep => n.Bundle? && bundles + 1 > 5
      case SubmodelsExceeded => n.Bundle? && |n.submodels| > 8
      case InvalidEnvelope => n.Bundle? && NoModel in n.submodels
      case SequentialChildrenExceeded | RateMismatch => true
    ensures Blamed(n, seqs, bundles, e)
  {
    assert [n][1..] == [];
    assert PathBlames([n], seqs, bundles, e);
  }

  lemma BlamedBelow(n: Node, child: Node, seqs: nat, bundles: nat, seqs': nat, bundles': nat, e: Error)
    requires IsChild(n, child) && Blamed(child, seqs', bundles', e)
    requires seqs' == seqs + (if n.Sequential? then 1 else 0) && bundles' == bundles + (if n.Bundle? then 1 else 0)
    ensures Blamed(n, seqs, bundles, e)
  {
    var path :| PathBlames(path, seqs', bundles', e) && path[0] == child;
    Prepend(n, path);
    assert PathBlames([n] + path, seqs, bundles, e);
  }

  // ----- the traversal

  class StructuralBudget {
    var totalSequentialChildren: nat

    constructor ()
      ensures totalSequentialChildren == 0
    {
      totalSequentialChildren := 0;
    }
  }

  /** Folds a child's rate into the running one. */
  method ReduceRate(resolved: Option<real>, childRate: Option<real>) returns (r: Result<Option<real>, Error>)
    ensures r.Ok? <==> Consistent(AsSet(resolved) + AsSet(childRate))
    ensures r.Ok? ==> AsSet(r.value) == AsSet(resolved) + AsSet(childRate)
    ensures r.Err? ==> r.error == RateMismatch
  {
    if childRate.None? {
      return Ok(resolved);
    }
    match resolved {
      case None => r := Ok(childRate);
      case Some(expected) =>
        if childRate.value != expected {
          assert childRate.value in AsSet(resolved) + AsSet(childRate) && expected in AsSet(resolved) + AsSet(childRate);
          r := Err(RateMismatch);
        } else {
          r := Ok(resolved);
        }
    }
  }

  /** Sequential nodes above, from the depth threaded through the recursion. */
  ghost function Seqs(depth: Option<nat>): nat { if depth.Some? then depth.value else 0 }

  /** Container nodes above: the first container is at depth 0. */
  ghost function Bundles(depth: Option<nat>): nat { if depth.Some? then depth.value + 1 else 0 }

  // ----- the loops over children, one step at a time

  lemma ModelsStep(ms: seq<Node>, i: nat, seqs: nat, bundles: nat)
    requires i < |ms|
    ensures ChildrenOf(ms[..i + 1]) == ChildrenOf(ms[..i]) + SequentialChildren(ms[i])
    ensures RatesOf(ms[..i + 1]) == RatesOf(ms[..i]) + Rates(ms[i])
    ensures AllWellFormed(ms[..i + 1], seqs, bundles) <==> AllWellFormed(ms[..i], seqs, bundles) && WellFormed(ms[i], seqs, bundles)
  {
    assert ms[..i + 1][..i] == ms[..i];
  }

  lemma EntriesStep(es: seq<Entry>, i: nat, seqs: nat, bundles: nat)
    requires i < |es|
    ensures ChildrenOfEntries(es[..i + 1]) == ChildrenOfEntries(es[..i]) + ChildrenOfEntry(es[i])
    ensures RatesOfEntries(es[..i + 1]) == RatesOfEntries(es[..i]) + RatesOfEntry(es[i])
    ensures EntriesWellFormed(es[..i + 1], seqs, bundles) <==> EntriesWellFormed(es[..i], seqs, bundles) && EntryWellFormed(es[i], seqs, bundles)
  {
    assert es[..i + 1][..i] == es[..i];
  }

  /** The first children declare and use no more than all of them. */
  lemma {:induction false} ModelsPrefix(ms: seq<Node>, i: nat, seqs: nat, bundles: nat)
    requires i <= |ms|
    ensures ChildrenOf(ms[..i]) <= ChildrenOf(ms)
    ensures RatesOf(ms[..i]) <= RatesOf(ms)
    ensures AllWellFormed(ms, seqs, bundles) ==> AllWellFormed(ms[..i], seqs, bundles)
    decreases |ms| - i
  {
    if i == |ms| {
      assert ms[..i] == ms;
    } else {
      ModelsPrefix(ms, i + 1, seqs, bundles);
      ModelsStep(ms, i, seqs, bundles);
    }
  }

  lemma {:induction false} EntriesPrefix(es: seq<Entry>, i: nat, seqs: nat, bundles: nat)
    requires i <= |es|
    ensures ChildrenOfEntries(es[..i]) <= ChildrenOfEntries(es)
    ensures RatesOfEntries(es[..i]) <= RatesOfEntries(es)
    ensures EntriesWellFormed(es, seqs, bundles) ==> EntriesWellFormed(es[..i], seqs, bundles)
    decreases |es| - i
  {
    if i == |es| {
      assert es[..i] == es;
    } else {
      EntriesPrefix(es, i + 1, seqs, bundles);
      EntriesStep(es, i, seqs, bundles);
    }
  }

  lemma ModelsAccount(ms: seq<Node>, i: nat, own: Option<real>, seqs: nat, bundles: nat)
    requires i < |ms|
    ensures OfModels(ms[..i + 1], own, seqs, bundles) == Plus(OfModels(ms[..i], own, seqs, bundles), OfNode(ms[i], seqs, bundles), 1)
    ensures PartOf(OfModels(ms[..i + 1], own, seqs, bundles), OfModels(ms, own, seqs, bundles))
  {
    ModelsStep(ms, i, seqs, bundles);
    ModelsPrefix(ms, i + 1, seqs, bundles);
    assert AsSet(own) + RatesOf(ms[..i + 1]) == AsSet(own) + RatesOf(ms[..i]) + Rates(ms[i]);
  }

  lemma EntriesAccount(es: seq<Entry>, i: nat, own: Option<real>, seqs: nat, bundles: nat)
    requires i < |es|
    ensures OfEntries(es[..i + 1], own, seqs, bundles) == Plus(OfEntries(es[..i], own, seqs, bundles), OfEntry(es[i], seqs, bundles), 0)
    ensures PartOf(OfEntries(es[..i + 1], own, seqs, bundles), OfEntries(es, own, seqs, bundles))
  {
    EntriesStep(es, i, seqs, bundles);
    EntriesPrefix(es, i + 1, seqs, bundles);
    assert AsSet(own) + RatesOfEntries(es[..i + 1]) == AsSet(own) + RatesOfEntries(es[..i]) + RatesOfEntry(es[i]);
  }

  /** The budget cannot pay for the next child. */
  lemma Exhausted(resolved: Option<real>, a: Account, used: nat, b: Account, whole: Account)
    requires Settled(Ok(resolved), a, used, MAX_SEQUENTIAL_TOTAL_CHILDREN) && PartOf(Plus(a, b, 1), whole)
    ensures Settled(Err(SequentialChildrenExceeded), whole, used, MAX_SEQUENTIAL_TOTAL_CHILDREN + 1)
  {
  }

  /** Resolves the rate of a node under the depth limits and the shared child budget. */
  method ResolveValueRate(n: Node, seqDepth: Option<nat>, containerDepth: Option<nat>, budget: StructuralBudget)
    returns (r: Result<Option<real>, Error>)
    requires budget.totalSequentialChildren <= MAX_SEQUENTIAL_TOTAL_CHILDREN
    modifies budget
    ensures Settled(
      r, OfNode(n, Seqs(seqDepth), Bundles(containerDepth)),
      old(budget.totalSequentialChildren), budget.totalSequentialChildren)
    ensures r.Err? ==> Blamed(n, Seqs(seqDepth), Bundles(containerDepth), r.error)
    decreases n, 1
  {
    var declared := ReadDeclaredRate(n.declared);
    if declared.Err? {
      BlamedHere(n, Seqs(seqDepth), Bundles(containerDepth), InvalidSampleRate);
      return declared;
    }
    match n {
      case Plain(_) =>
        r := declared;
      case Sequential(_, _) =>
        r := ResolveSequential(n, declared.value, seqDepth, containerDepth, budget);
      case Bundle(_, _) =>
        r := ResolveBundle(n, declared.value, seqDepth, containerDepth, budget);
    }
  }

  /** The arm of a sequential node: one level deeper, then its children. */
  method ResolveSequential(n: Node, own: Option<real>, seqDepth: Option<nat>, containerDepth: Option<nat>, budget: StructuralBudget)
    returns (r: Result<Option<real>, Error>)
    requires n.Sequential? && ReadDeclaredRate(n.declared) == Ok(own)
    requires budget.totalSequentialChildren <= MAX_SEQUENTIAL_TOTAL_CHILDREN
    modifies budget
    ensures Settled(
      r, OfNode(n, Seqs(seqDepth), Bundles(containerDepth)),
      old(budget.totalSequentialChildren), budget.totalSequentialChildren)
    ensures r.Err? ==> Blamed(n, Seqs(seqDepth), Bundles(containerDepth), r.error)
    decreases n, 0
  {
    var next := match seqDepth case None => 1 case Some(d) => d + 1;
    if next > MAX_SEQUENTIAL_DEPTH {
      BlamedHere(n, Seqs(seqDepth), Bundles(containerDepth), SequentialDepthExceeded);
      return Err(SequentialDepthExceeded);
    }
    r := ResolveModels(n.models, own, next, containerDepth, budget);
    if r.Err? {
      ghost var i :| 0 <= i < |n.models| && Blamed(n.models[i], next, Bundles(containerDepth), r.error);
      BlamedBelow(n, n.models[i], Seqs(seqDepth), Bundles(containerDepth), next, Bundles(containerDepth), r.error);
    }
  }

  /** The arm of a container: one level deeper, then its entries. */
  method ResolveBundle(n: Node, own: Option<real>, seqDepth: Option<nat>, containerDepth: Option<nat>, budget: StructuralBudget)
    returns (r: Result<Option<real>, Error>)
    requires n.Bundle? && ReadDeclaredRate(n.declared) == Ok(own)
    requires budget.totalSequentialChildren <= MAX_SEQUENTIAL_TOTAL_CHILDREN
    modifies budget
    ensures Settled(
      r, OfNode(n, Seqs(seqDepth), Bundles(containerDepth)),
      old(budget.totalSequentialChildren), budget.totalSequentialChildren)
    ensures r.Err? ==> Blamed(n, Seqs(seqDepth), Bundles(containerDepth), r.error)
    decreases n, 0
  {
    var next := match containerDepth case None => 0 case Some(d) => d + 1;
    if next > MAX_CONTAINER_DEPTH {
      BlamedHere(n, Seqs(seqDepth), Bundles(containerDepth), ContainersTooDeep);
      return Err(ContainersTooDeep);
    }
    if |n.submodels| > MAX_SUBMODELS {
      BlamedHere(n, Seqs(seqDepth), Bundles(containerDepth), SubmodelsExceeded);
      return Err(SubmodelsExceeded);
    }
    r := ResolveEntries(n.submodels, own, seqDepth, next, budget);
    if r.Err? {
      EntriesBlame(n, Seqs(seqDepth), Bundles(containerDepth), r.error);
    }
  }

  /** An entry is at fault: it is incomplete, or the node in it is. */
  ghost predicate EntryBlamed(e: Entry, seqs: nat, bundles: nat, error: Error) {
    if e.NoModel? then error == InvalidEnvelope else Blamed(e.model, seqs, bundles, error)
  }

  lemma EntriesBlame(n: Node, seqs: nat, bundles: nat, e: Error)
    requires n.Bundle? && exists i :: 0 <= i < |n.submodels| && EntryBlamed(n.submodels[i], seqs, bundles + 1, e)
    ensures Blamed(n, seqs, bundles, e)
  {
    var i :| 0 <= i < |n.submodels| && EntryBlamed(n.submodels[i], seqs, bundles + 1, e);
    if n.submodels[i].NoModel? {
      BlamedHere(n, seqs, bundles, e);
    } else {
      assert n.submodels[i] == Entry(n.submodels[i].model);
      BlamedBelow(n, n.submodels[i].model, seqs, bundles, seqs, bundles + 1, e);
    }
  }

  /** One child of either loop: its rate is resolved and folded into the running one. */
  method FoldChild(child: Node, resolved: Option<real>, seqDepth: Option<nat>, containerDepth: Option<nat>, budget: StructuralBudget)
    returns (r: Result<Option<real>, Error>)
    requires budget.totalSequentialChildren <= MAX_SEQUENTIAL_TOTAL_CHILDREN
    modifies budget
    ensures Settled(
      r, After(resolved, OfNode(child, Seqs(seqDepth), Bundles(containerDepth))),
      old(budget.totalSequentialChildren), budget.totalSequentialChildren)
    ensures r.Err? ==> Blamed(child, Seqs(seqDepth), Bundles(containerDepth), r.error)
    decreases child, 2
  {
    SubsetSize(Rates(child), AsSet(resolved) + Rates(child));
    BlamedHere(child, Seqs(seqDepth), Bundles(containerDepth), RateMismatch);
    r := ResolveValueRate(child, seqDepth, containerDepth, budget);
    if r.Ok? {
      r := ReduceRate(resolved, r.value);
    }
  }

  /** The loop over a sequential node's children. */
  method ResolveModels(ms: seq<Node>, own: Option<real>, seqDepth: nat, containerDepth: Option<nat>, budget: StructuralBudget)
    returns (r: Result<Option<real>, Error>)
    requires budget.totalSequentialChildren <= MAX_SEQUENTIAL_TOTAL_CHILDREN
    modifies budget
    ensures Settled(
      r, OfModels(ms, own, seqDepth, Bundles(containerDepth)),
      old(budget.totalSequentialChildren), budget.totalSequentialChildren)
    ensures r.Err? ==> exists i :: 0 <= i < |ms| && Blamed(ms[i], seqDepth, Bundles(containerDepth), r.error)
    decreases ms, 0
  {
    ghost var used, bundles := budget.totalSequentialChildren, Bundles(containerDepth);
    ghost var whole := OfModels(ms, own, seqDepth, bundles);
    var resolved := own;
    for i := 0 to |ms|
      invariant budget.totalSequentialChildren <= MAX_SEQUENTIAL_TOTAL_CHILDREN
      invariant Settled(Ok(resolved), OfModels(ms[..i], own, seqDepth, bundles), used, budget.totalSequentialChildren)
    {
      ghost var middle := budget.totalSequentialChildren;
      ghost var front, child := OfModels(ms[..i], own, seqDepth, bundles), OfNode(ms[i], seqDepth, bundles);
      ModelsAccount(ms, i, own, seqDepth, bundles);
      budget.totalSequentialChildren := budget.totalSequentialChildren + 1;
      if budget.totalSequentialChildren > MAX_SEQUENTIAL_TOTAL_CHILDREN {
        Exhausted(resolved, front, used, child, whole);
        BlamedHere(ms[i], seqDepth, bundles, SequentialChildrenExceeded);
        return Err(SequentialChildrenExceeded);
      }
      r := FoldChild(ms[i], resolved, Some(seqDepth), containerDepth, budget);
      SettledThen(resolved, front, used, middle, r, child, 1, budget.totalSequentialChildren);
      if r.Err? {
        SettledEarly(r, Plus(front, child, 1), used, budget.totalSequentialChildren, whole);
        return;
      }
      resolved := r.value;
    }
    assert ms[..|ms|] == ms;
    r := Ok(resolved);
  }

  /** The loop over a container's submodels. */
  method ResolveEntries(es: seq<Entry>, own: Option<real>, seqDepth: Option<nat>, containerDepth: nat, budget: StructuralBudget)
    returns (r: Result<Option<real>, Error>)
    requires budget.totalSequentialChildren <= MAX_SEQUENTIAL_TOTAL_CHILDREN
    modifies budget
    ensures Settled(
      r, OfEntries(es, own, Seqs(seqDepth), containerDepth + 1),
      old(budget.totalSequentialChildren), budget.totalSequentialChildren)
    ensures r.Err? ==> exists i :: 0 <= i < |es| && EntryBlamed(es[i], Seqs(seqDepth), containerDepth + 1, r.error)
    decreases es, 0
  {
    ghost var used, seqs, bundles := budget.totalSequentialChildren, Seqs(seqDepth), containerDepth + 1;
    ghost var whole := OfEntries(es, own, seqs, bundles);
    var resolved := own;
    for i := 0 to |es|
      invariant budget.totalSequentialChildren <= MAX_SEQUENTIAL_TOTAL_CHILDREN
      invariant Settled(Ok(resolved), OfEntries(es[..i], own, seqs, bundles), used, budget.totalSequentialChildren)
    {
      ghost var middle := budget.totalSequentialChildren;
      ghost var front, child := OfEntries(es[..i], own, seqs, bundles), OfEntry(es[i], seqs, bundles);
      EntriesAccount(es, i, own, seqs, bundles);
      r := FoldEntry(es[i], resolved, seqDepth, containerDepth, budget);
      SettledThen(resolved, front, used, middle, r, child, 0, budget.totalSequentialChildren);
      if r.Err? {
        SettledEarly(r, Plus(front, child, 0), used, budget.totalSequentialChildren, whole);
        return;
      }
      resolved := r.value;
    }
    assert es[..|es|] == es;
    r := Ok(resolved);
  }

  method FoldEntry(entry: Entry, resolved: Option<real>, seqDepth: Option<nat>, containerDepth: nat, budget: StructuralBudget)
    returns (r: Result<Option<real>, Error>)
    requires budget.totalSequentialChildren <= MAX_SEQUENTIAL_TOTAL_CHILDREN
    modifies budget
    ensures Settled(
      r, After(resolved, OfEntry(entry, Seqs(seqDepth), containerDepth + 1)),
      old(budget.totalSequentialChildren), budget.totalSequentialChildren)
    ensures r.Err? ==> EntryBlamed(entry, Seqs(seqDepth), containerDepth + 1, r.error)
    decreases entry, 0
  {
    if entry.NoModel? {
      return Err(InvalidEnvelope);
    }
    r := FoldChild(entry.model, resolved, seqDepth, Some(containerDepth), budget);
  }

  // ----- the root of the graph

  /** The root arrives parsed: its own rate was already read from its declaration. */
  datatype Root =
    | PlainRoot(rate: Option<real>)
    | SequentialRoot(rate: Option<real>, models: seq<Node>)
    | BundleRoot(rate: Option<real>, submodels: seq<Entry>)

  /** The same root as a node of the graph. */
  ghost function AsNode(root: Root, declared: Declared): Node {
    match root
    case PlainRoot(_) => Plain(declared)
    case SequentialRoot(_, models) => Sequential(declared, models)
    case BundleRoot(_, submodels) => Bundle(declared, submodels)
  }

  /** A node's account is its own rate's together with its children's. */
  lemma RootAccount(root: Root, declared: Declared)
    requires ReadDeclaredRate(declared) == Ok(root.rate)
    ensures var whole := OfNode(AsNode(root, declared), 0, 0);
      match root
      case PlainRoot(rate) => whole == Account(true, 0, AsSet(rate))
      case SequentialRoot(rate, models) => whole == OfModels(models, rate, 1, 0)
      case BundleRoot(rate, submodels) =>
        var inner := OfEntries(submodels, rate, 0, 1);
        whole == inner.(legal := inner.legal && |submodels| <= 8)
  {
  }

  /** Resolution of a whole tree succeeds exactly when the tree is well formed, has at
      most 64 sequential children and declares at most one rate, and returns that rate. */
  method EffectiveKnownRate(root: Root, ghost declared: Declared) returns (r: Result<Option<real>, Error>)
    requires ReadDeclaredRate(declared) == Ok(root.rate)
    ensures var whole := OfNode(AsNode(root, declared), 0, 0);
      Settled(r, whole, 0, whole.children)
    ensures r.Err? ==> Blamed(AsNode(root, declared), 0, 0, r.error)
  {
    RootAccount(root, declared);
    ghost var n := AsNode(root, declared);
    var budget := new StructuralBudget();
    match root {
      case SequentialRoot(rate, models) =>
        r := ResolveModels(models, rate, 1, None, budget);
        if r.Err? {
          ghost var i :| 0 <= i < |models| && Blamed(models[i], 1, 0, r.error);
          BlamedBelow(n, models[i], 0, 0, 1, 0, r.error);
        }
      case BundleRoot(rate, submodels) =>
        if |submodels| > MAX_SUBMODELS {
          BlamedHere(n, 0, 0, SubmodelsExceeded);
          return Err(SubmodelsExceeded);
        }
        r := ResolveEntries(submodels, rate, None, 0, budget);
        if r.Err? {
          EntriesBlame(n, 0, 0, r.error);
        }
      case PlainRoot(rate) =>
        r := Ok(rate);
    }
  }

  // ----- the order of children is irrelevant

  /** The first element of a sequence has a place in any permutation of it, and without
      it the two are still permutations of each other. */
  lemma Partner<T>(xs: seq<T>, ys: seq<T>) returns (j: nat)
    requires xs != [] && multiset(xs) == multiset(ys)
    ensures j < |ys| && ys[j] == xs[0]
    ensures multiset(xs[1..]) == multiset(ys[..j] + ys[j + 1..])
  {
    assert xs[0] in multiset(xs);
    assert xs[0] in multiset(ys);
    j :| 0 <= j < |ys| && ys[j] == xs[0];
    assert xs == [xs[0]] + xs[1..];
    assert ys == ys[..j] + [xs[0]] + ys[j + 1..];
    assert multiset(xs[1..]) == multiset(xs) - multiset{xs[0]};
    assert multiset(ys[..j] + ys[j + 1..]) == multiset(ys) - multiset{xs[0]};
  }

  /** Removing an element before the last one leaves the last one in place. */
  lemma RemovedFront<T>(xs: seq<T>, j: nat)
    requires j + 1 < |xs|
    ensures var n := |xs| - 1; var rest := xs[..j] + xs[j + 1..];
      rest[..n] == rest && rest[n - 1] == xs[n] && rest[..n - 1] == xs[..n][..j] + xs[..n][j + 1..]
  {
  }

  lemma {:induction false} ModelsRemove(ms: seq<Node>, j: nat, seqs: nat, bundles: nat)
    requires j < |ms|
    ensures var rest := ms[..j] + ms[j + 1..];
      && AllWellFormed(ms, seqs, bundles) == (AllWellFormed(rest, seqs, bundles) && WellFormed(ms[j], seqs, bundles))
      && ChildrenOf(ms) == ChildrenOf(rest) + SequentialChildren(ms[j])
      && RatesOf(ms) == RatesOf(rest) + Rates(ms[j])
  {
    var n := |ms| - 1;
    var rest := ms[..j] + ms[j + 1..];
    ModelsStep(ms, n, seqs, bundles);
    assert ms[..n + 1] == ms;
    if j == n {
      assert rest == ms[..n];
    } else {
      ModelsRemove(ms[..n], j, seqs, bundles);
      ModelsStep(rest, n - 1, seqs, bundles);
      RemovedFront(ms, j);
    }
  }

  lemma {:induction false} ModelsOrder(ms: seq<Node>, ms': seq<Node>, seqs: nat, bundles: nat)
    requires multiset(ms) == multiset(ms')
    ensures AllWellFormed(ms, seqs, bundles) == AllWellFormed(ms', seqs, bundles)
    ensures ChildrenOf(ms) == ChildrenOf(ms')
    ensures RatesOf(ms) == RatesOf(ms')
    decreases |ms|
  {
    assert |multiset(ms)| == |ms| && |multiset(ms')| == |ms'|;
    if ms != [] {
      var j := Partner(ms, ms');
      var rest := ms'[..j] + ms'[j + 1..];
      ModelsOrder(ms[1..], rest, seqs, bundles);
      ModelsPut(ms, ms', j, rest, seqs, bundles);
    }
  }

  /** Two lists that agree on one element and on the rest agree. */
  lemma ModelsPut(ms: seq<Node>, ms': seq<Node>, j: nat, rest: seq<Node>, seqs: nat, bundles: nat)
    requires ms != [] && j < |ms'| && ms'[j] == ms[0] && rest == ms'[..j] + ms'[j + 1..]
    requires AllWellFormed(ms[1..], seqs, bundles) == AllWellFormed(rest, seqs, bundles)
    requires ChildrenOf(ms[1..]) == ChildrenOf(rest) && RatesOf(ms[1..]) == RatesOf(rest)
    ensures AllWellFormed(ms, seqs, bundles) == AllWellFormed(ms', seqs, bundles)
    ensures ChildrenOf(ms) == ChildrenOf(ms') && RatesOf(ms) == RatesOf(ms')
  {
    assert ms[..0] + ms[1..] == ms[1..];
    ModelsRemove(ms, 0, seqs, bundles);
    ModelsRemove(ms', j, seqs, bundles);
  }

  lemma {:induction false} EntriesRemove(es: seq<Entry>, j: nat, seqs: nat, bundles: nat)
    requires j < |es|
    ensures var rest := es[..j] + es[j + 1..];
      && EntriesWellFormed(es, seqs, bundles) == (EntriesWellFormed(rest, seqs, bundles) && EntryWellFormed(es[j], seqs, bundles))
      && ChildrenOfEntries(es) == ChildrenOfEntries(rest) + ChildrenOfEntry(es[j])
      && RatesOfEntries(es) == RatesOfEntries(rest) + RatesOfEntry(es[j])
  {
    var n := |es| - 1;
    var rest := es[..j] + es[j + 1..];
    EntriesStep(es, n, seqs, bundles);
    assert es[..n + 1] == es;
    if j == n {
      assert rest == es[..n];
    } else {
      EntriesRemove(es[..n], j, seqs, bundles);
      EntriesStep(rest, n - 1, seqs, bundles);
      RemovedFront(es, j);
    }
  }

  lemma {:induction false} EntriesOrder(es: seq<Entry>, es': seq<Entry>, seqs: nat, bundles: nat)
    requires multiset(es) == multiset(es')
    ensures EntriesWellFormed(es, seqs, bundles) == EntriesWellFormed(es', seqs, bundles)
    ensures ChildrenOfEntries(es) == ChildrenOfEntries(es')
    ensures RatesOfEntries(es) == RatesOfEntries(es')
    decreases |es|
  {
    assert |multiset(es)| == |es| && |multiset(es')| == |es'|;
    if es != [] {
      var j := Partner(es, es');
      var rest := es'[..j] + es'[j + 1..];
      EntriesOrder(es[1..], rest, seqs, bundles);
      EntriesPut(es, es', j, rest, seqs, bundles);
    }
  }

  /** Two lists that agree on one element and on the rest agree. */
  lemma EntriesPut(es: seq<Entry>, es': seq<Entry>, j: nat, rest: seq<Entry>, seqs: nat, bundles: nat)
    requires es != [] && j < |es'| && es'[j] == es[0] && rest == es'[..j] + es'[j + 1..]
    requires EntriesWellFormed(es[1..], seqs, bundles) == EntriesWellFormed(rest, seqs, bundles)
    requires ChildrenOfEntries(es[1..]) == ChildrenOfEntries(rest) && RatesOfEntries(es[1..]) == RatesOfEntries(rest)
    ensures EntriesWellFormed(es, seqs, bundles) == EntriesWellFormed(es', seqs, bundles)
    ensures ChildrenOfEntries(es) == ChildrenOfEntries(es') && RatesOfEntries(es) == RatesOfEntries(es')
  {
    assert es[..0] + es[1..] == es[1..];
    EntriesRemove(es, 0, seqs, bundles);
    EntriesRemove(es', j, seqs, bundles);
  }

  /** Permuting the children of a sequential or container node changes nothing that
      resolution depends on, hence neither its verdict nor its rate. */
  lemma ChildOrderIsIrrelevant(n: Node, n': Node, seqs: nat, bundles: nat)
    requires n.declared == n'.declared
    requires
      || (n.Sequential? && n'.Sequential? && multiset(n.models) == multiset(n'.models))
      || (n.Bundle? && n'.Bundle? && multiset(n.submodels) == multiset(n'.submodels))
    ensures WellFormed(n, seqs, bundles) == WellFormed(n', seqs, bundles)
    ensures SequentialChildren(n) == SequentialChildren(n')
    ensures Rates(n) == Rates(n')
  {
    if n.Sequential? {
      ModelsOrder(n.models, n'.models, seqs + 1, bundles);
      assert |multiset(n.models)| == |n.models| && |multiset(n'.models)| == |n'.models|;
    } else {
      EntriesOrder(n.submodels, n'.submodels, seqs, bundles + 1);
      assert |multiset(n.submodels)| == |n.submodels| && |multiset(n'.submodels)| == |n'.submodels|;
    }
  }

  /** The same tree up to the order of children, at every depth. */
  ghost predicate Shuffled(n: Node, m: Node)
    decreases m, 1
  {
    && n.declared == m.declared
    && match m
       case Plain(_) => n.Plain?
       case Sequential(_, ms) =>
         n.Sequential? && exists xs :: multiset(xs) == multiset(n.models) && ShuffledAll(xs, ms)
       case Bundle(_, es) =>
         n.Bundle? && exists xs :: multiset(xs) == multiset(n.submodels) && ShuffledEntries(xs, es)
  }

  ghost predicate ShuffledAll(xs: seq<Node>, ms: seq<Node>)
    decreases ms, 0
  {
    && |xs| == |ms|
    && (ms == [] || (ShuffledAll(xs[..|ms| - 1], ms[..|ms| - 1]) && Shuffled(xs[|ms| - 1], ms[|ms| - 1])))
  }

  ghost predicate ShuffledEntries(xs: seq<Entry>, es: seq<Entry>)
    decreases es, 0
  {
    && |xs| == |es|
    && (es == [] || (ShuffledEntries(xs[..|es| - 1], es[..|es| - 1]) && ShuffledEntry(xs[|es| - 1], es[|es| - 1])))
  }

  ghost predicate ShuffledEntry(x: Entry, e: Entry)
    decreases e, 0
  {
    if e.NoModel? then x.NoModel? else x.Entry? && Shuffled(x.model, e.model)
  }

  /** Every tree is a shuffle of itself, so a shuffle may leave any subtree alone. */
  lemma {:induction false} ShuffledSelf(n: Node)
    ensures Shuffled(n, n)
    decreases n, 1
  {
    match n
    case Plain(_) =>
    case Sequential(_, ms) => ShuffledAllSelf(ms);
    case Bundle(_, es) => ShuffledEntriesSelf(es);
  }

  lemma {:induction false} ShuffledAllSelf(ms: seq<Node>)
    ensures ShuffledAll(ms, ms)
    decreases ms, 0
  {
    if ms != [] {
      ShuffledAllSelf(ms[..|ms| - 1]);
      ShuffledSelf(ms[|ms| - 1]);
    }
  }

  lemma {:induction false} ShuffledEntriesSelf(es: seq<Entry>)
    ensures ShuffledEntries(es, es)
    decreases es, 0
  {
    if es != [] {
      ShuffledEntriesSelf(es[..|es| - 1]);
      ShuffledEntrySelf(es[|es| - 1]);
    }
  }

  lemma {:induction false} ShuffledEntrySelf(e: Entry)
    ensures ShuffledEntry(e, e)
    decreases e, 0
  {
    if e.Entry? {
      ShuffledSelf(e.model);
    }
  }

  /** Shuffling a tree at any depths changes nothing that resolution depends on, hence
      neither its verdict nor its rate. */
  lemma {:induction false} OrderIsIrrelevant(n: Node, m: Node, seqs: nat, bundles: nat)
    requires Shuffled(n, m)
    ensures WellFormed(n, seqs, bundles) == WellFormed(m, seqs, bundles)
    ensures SequentialChildren(n) == SequentialChildren(m)
    ensures Rates(n) == Rates(m)
    decreases m, 1
  {
    match m
    case Plain(_) =>
    case Sequential(d, ms) =>
      var xs :| multiset(xs) == multiset(n.models) && ShuffledAll(xs, ms);
      ChildOrderIsIrrelevant(n, Sequential(d, xs), seqs, bundles);
      ShuffledModelsAgree(xs, ms, seqs + 1, bundles);
    case Bundle(d, es) =>
      var xs :| multiset(xs) == multiset(n.submodels) && ShuffledEntries(xs, es);
      ChildOrderIsIrrelevant(n, Bundle(d, xs), seqs, bundles);
      ShuffledEntriesAgree(xs, es, seqs, bundles + 1);
  }

  lemma {:induction false} ShuffledModelsAgree(xs: seq<Node>, ms: seq<Node>, seqs: nat, bundles: nat)
    requires ShuffledAll(xs, ms)
    ensures AllWellFormed(xs, seqs, bundles) == AllWellFormed(ms, seqs, bundles)
    ensures ChildrenOf(xs) == ChildrenOf(ms) && RatesOf(xs) == RatesOf(ms)
    decreases ms, 0
  {
    if ms != [] {
      ShuffledModelsAgree(xs[..|ms| - 1], ms[..|ms| - 1], seqs, bundles);
      OrderIsIrrelevant(xs[|ms| - 1], ms[|ms| - 1], seqs, bundles);
    }
  }

  lemma {:induction false} ShuffledEntriesAgree(xs: seq<Entry>, es: seq<Entry>, seqs: nat, bundles: nat)
    requires ShuffledEntries(xs, es)
    ensures EntriesWellFormed(xs, seqs, bundles) == EntriesWellFormed(es, seqs, bundles)
    ensures ChildrenOfEntries(xs) == ChildrenOfEntries(es) && RatesOfEntries(xs) == RatesOfEntries(es)
    decreases es, 0
  {
    if es != [] {
      ShuffledEntriesAgree(xs[..|es| - 1], es[..|es| - 1], seqs, bundles);
      ShuffledEntryAgrees(xs[|es| - 1], es[|es| - 1], seqs, bundles);
    }
  }

  lemma {:induction false} ShuffledEntryAgrees(x: Entry, e: Entry, seqs: nat, bundles: nat)
    requires ShuffledEntry(x, e)
    ensures EntryWellFormed(x, seqs, bundles) == EntryWellFormed(e, seqs, bundles)
    ensures ChildrenOfEntry(x) == ChildrenOfEntry(e) && RatesOfEntry(x) == RatesOfEntry(e)
    decreases e, 0
  {
    if e.Entry? {
      OrderIsIrrelevant(x.model, e.model, seqs, bundles);
    }
  }

  // ----- what an accepted tree looks like along any path

  lemma CountsOfOne(n: Node, seqs: nat, bundles: nat)
    requires WellFormed(n, seqs, bundles)
    ensures CountSequential([n]) == (if n.Sequential? then 1 else 0)
    ensures CountBundles([n]) == (if n.Bundle? then 1 else 0)
    ensures n.Sequential? ==> seqs + 1 <= 8
    ensures n.Bundle? ==> bundles + 1 <= 5
  {
    assert [n][1..] == [];
  }

  lemma ModelIsWellFormed(ms: seq<Node>, i: nat, seqs: nat, bundles: nat)
    requires i < |ms| && AllWellFormed(ms, seqs, bundles)
    ensures WellFormed(ms[i], seqs, bundles)
  {
    ModelsPrefix(ms, i + 1, seqs, bundles);
    ModelsStep(ms, i, seqs, bundles);
  }

  lemma EntryIsWellFormed(es: seq<Entry>, i: nat, seqs: nat, bundles: nat)
    requires i < |es| && EntriesWellFormed(es, seqs, bundles)
    ensures EntryWellFormed(es[i], seqs, bundles)
  {
    EntriesPrefix(es, i + 1, seqs, bundles);
    EntriesStep(es, i, seqs, bundles);
  }

  lemma ChildIsWellFormed(n: Node, child: Node, seqs: nat, bundles: nat)
    requires WellFormed(n, seqs, bundles) && IsChild(n, child)
    ensures WellFormed(child, seqs + CountSequential([n]), bundles + CountBundles([n]))
  {
    CountsOfOne(n, seqs, bundles);
    if n.Sequential? {
      var i :| 0 <= i < |n.models| && n.models[i] == child;
      ModelIsWellFormed(n.models, i, seqs + 1, bundles);
    } else {
      var i :| 0 <= i < |n.submodels| && n.submodels[i] == Entry(child);
      EntryIsWellFormed(n.submodels, i, seqs, bundles + 1);
    }
  }

  /** The node itself declares a valid rate and keeps the submodel limit, with complete entries. */
  ghost predicate LocallyLegal(n: Node) {
    && ReadDeclaredRate(n.declared).Ok?
    && (n.Bundle? ==> |n.submodels| <= 8 && forall i :: 0 <= i < |n.submodels| ==> n.submodels[i].Entry?)
  }

  /** Below `seqs` sequential and `bundles` container nodes, the path meets at most 8
      sequential and 5 container nodes in all, and only legal ones. */
  ghost predicate GoodPath(path: seq<Node>, seqs: nat, bundles: nat) {
    && seqs + CountSequential(path) <= 8 && bundles + CountBundles(path) <= 5
    && forall k :: 0 <= k < |path| ==> LocallyLegal(path[k])
  }

  lemma LegalNode(n: Node, seqs: nat, bundles: nat)
    requires WellFormed(n, seqs, bundles)
    ensures LocallyLegal(n)
  {
    if n.Bundle? {
      forall i | 0 <= i < |n.submodels| ensures n.submodels[i].Entry? {
        EntryIsWellFormed(n.submodels, i, seqs, bundles + 1);
      }
    }
  }

  /** No path of a well-formed tree meets more than 8 sequential or 5 container nodes,
      and every node on it is legal. */
  lemma {:induction false} PathsAreBounded(path: seq<Node>, seqs: nat, bundles: nat)
    requires path != [] && IsPath(path) && WellFormed(path[0], seqs, bundles)
    requires seqs <= 8 && bundles <= 5
    ensures GoodPath(path, seqs, bundles)
  {
    var n := path[0];
    CountsOfOne(n, seqs, bundles);
    LegalNode(n, seqs, bundles);
    if |path| > 1 {
      assert IsChild(path[0], path[1]);
      ChildIsWellFormed(n, path[1], seqs, bundles);
      var rest := path[1..];
      forall k | 0 < k < |rest| ensures IsChild(rest[k - 1], rest[k]) {
        assert IsChild(path[k], path[k + 1]);
      }
      PathsAreBounded(rest, seqs + CountSequential([n]), bundles + CountBundles([n]));
    }
  }
}
