/** Trees of models by their paths: which trees are legal, and which rates they declare. */
module RatePaths {
  import opened SampleRate

  // ----- legality

  lemma {:induction false} BadModel(ms: seq<Node>, seqs: nat, bundles: nat) returns (i: nat)
    requires !AllWellFormed(ms, seqs, bundles)
    ensures i < |ms| && !WellFormed(ms[i], seqs, bundles)
  {
    i := |ms| - 1;
    if WellFormed(ms[i], seqs, bundles) {
      i := BadModel(ms[..i], seqs, bundles);
    }
  }

  lemma {:induction false} BadEntry(es: seq<Entry>, seqs: nat, bundles: nat) returns (i: nat)
    requires !EntriesWellFormed(es, seqs, bundles)
    ensures i < |es| && !EntryWellFormed(es[i], seqs, bundles)
  {
    i := |es| - 1;
    if EntryWellFormed(es[i], seqs, bundles) {
      i := BadEntry(es[..i], seqs, bundles);
    }
  }

  /** An illegal tree has an illegal path. */
  lemma {:induction false} BadPath(n: Node, seqs: nat, bundles: nat) returns (path: seq<Node>)
    requires !WellFormed(n, seqs, bundles)
    ensures path != [] && path[0] == n && IsPath(path) && !GoodPath(path, seqs, bundles)
    decreases n
  {
    path := [n];
    assert [n][1..] == [];
    if LocallyLegal(n) {
      if n.Sequential? && seqs + 1 <= 8 {
        var i := BadModel(n.models, seqs + 1, bundles);
        var below := BadPath(n.models[i], seqs + 1, bundles);
        path := Longer(n, below, seqs, bundles, seqs + 1, bundles);
      } else if n.Bundle? && bundles + 1 <= 5 {
        var i := BadEntry(n.submodels, seqs, bundles + 1);
        assert n.submodels[i] == Entry(n.submodels[i].model);
        var below := BadPath(n.submodels[i].model, seqs, bundles + 1);
        path := Longer(n, below, seqs, bundles, seqs, bundles + 1);
      }
    }
  }

  lemma Longer(n: Node, below: seq<Node>, seqs: nat, bundles: nat, seqs': nat, bundles': nat) returns (path: seq<Node>)
    requires below != [] && IsPath(below) && IsChild(n, below[0]) && !GoodPath(below, seqs', bundles')
    requires seqs' == seqs + (if n.Sequential? then 1 else 0) && bundles' == bundles + (if n.Bundle? then 1 else 0)
    ensures path == [n] + below && IsPath(path) && !GoodPath(path, seqs, bundles)
  {
    Prepend(n, below);
    path := [n] + below;
    if k :| 0 <= k < |below| && !LocallyLegal(below[k]) {
      assert path[k + 1] == below[k];
    }
  }

  /** A tree is legal exactly when every path from its root is: no more than 8 sequential
      and 5 container nodes on it, no more than 8 submodels, all complete, in a container,
      and no invalid rate. */
  lemma LegalExactly(n: Node)
    ensures WellFormed(n, 0, 0) <==> forall path :: path != [] && path[0] == n && IsPath(path) ==> GoodPath(path, 0, 0)
  {
    if WellFormed(n, 0, 0) {
      forall path | path != [] && path[0] == n && IsPath(path) ensures GoodPath(path, 0, 0) {
        PathsAreBounded(path, 0, 0);
      }
    } else {
      var path := BadPath(n, 0, 0);
    }
  }

  // ----- rates

  ghost predicate Declares(n: Node, rate: real) {
    ReadDeclaredRate(n.declared).Ok? && ReadDeclaredRate(n.declared).value.Some? && ReadDeclaredRate(n.declared).value.value == rate
  }

  lemma RatesOfChild(n: Node, child: Node)
    requires IsChild(n, child)
    ensures Rates(child) <= Rates(n)
  {
    if n.Sequential? {
      var i :| 0 <= i < |n.models| && n.models[i] == child;
      ModelsPrefix(n.models, i + 1, 0, 0);
      ModelsStep(n.models, i, 0, 0);
    } else {
      var i :| 0 <= i < |n.submodels| && n.submodels[i] == Entry(child);
      EntriesPrefix(n.submodels, i + 1, 0, 0);
      EntriesStep(n.submodels, i, 0, 0);
    }
  }

  lemma {:induction false} RateOnPath(path: seq<Node>, rate: real)
    requires path != [] && IsPath(path) && Declares(path[|path| - 1], rate)
    ensures rate in Rates(path[0])
  {
    if |path| > 1 {
      var rest := path[1..];
      forall k | 0 < k < |rest| ensures IsChild(rest[k - 1], rest[k]) {
        assert IsChild(path[k], path[k + 1]);
      }
      RateOnPath(rest, rate);
      assert IsChild(path[0], path[1]);
      RatesOfChild(path[0], path[1]);
    }
  }

  lemma {:induction false} ModelWithRate(ms: seq<Node>, rate: real) returns (i: nat)
    requires rate in RatesOf(ms)
    ensures i < |ms| && rate in Rates(ms[i])
  {
    i := |ms| - 1;
    if rate !in Rates(ms[i]) {
      i := ModelWithRate(ms[..i], rate);
    }
  }

  lemma {:induction false} EntryWithRate(es: seq<Entry>, rate: real) returns (i: nat)
    requires rate in RatesOfEntries(es)
    ensures i < |es| && es[i].Entry? && rate in Rates(es[i].model)
  {
    i := |es| - 1;
    if rate !in RatesOfEntry(es[i]) {
      i := EntryWithRate(es[..i], rate);
    }
  }

  lemma {:induction false} PathOfRate(n: Node, rate: real) returns (path: seq<Node>)
    requires rate in Rates(n)
    ensures path != [] && path[0] == n && IsPath(path) && Declares(path[|path| - 1], rate)
    decreases n
  {
    path := [n];
    if !Declares(n, rate) {
      var below: seq<Node>;
      if n.Sequential? {
        var i := ModelWithRate(n.models, rate);
        below := PathOfRate(n.models[i], rate);
      } else {
        var i := EntryWithRate(n.submodels, rate);
        assert n.submodels[i] == Entry(n.submodels[i].model);
        below := PathOfRate(n.submodels[i].model, rate);
      }
      Prepend(n, below);
      path := [n] + below;
    }
  }

  /** The rates of a tree are exactly those declared by a node that some path reaches. */
  lemma RatesExactly(n: Node, rate: real)
    ensures rate in Rates(n) <==>
      exists path :: path != [] && path[0] == n && IsPath(path) && Declares(path[|path| - 1], rate)
  {
    if rate in Rates(n) {
      var path := PathOfRate(n, rate);
    }
    if path :| path != [] && path[0] == n && IsPath(path) && Declares(path[|path| - 1], rate) {
      RateOnPath(path, rate);
    }
  }

  // ----- sequential children

  lemma {:induction false} ChildrenAdd(a: seq<Node>, b: seq<Node>)
    ensures ChildrenOf(a + b) == ChildrenOf(a) + ChildrenOf(b)
    decreases |b|
  {
    if b == [] {
      assert a + b == a;
    } else {
      ChildrenAdd(a, b[..|b| - 1]);
      assert (a + b)[..|a + b| - 1] == a + b[..|b| - 1];
    }
  }

  lemma {:induction false} EntryChildrenAdd(a: seq<Entry>, b: seq<Entry>)
    ensures ChildrenOfEntries(a + b) == ChildrenOfEntries(a) + ChildrenOfEntries(b)
    decreases |b|
  {
    if b == [] {
      assert a + b == a;
    } else {
      EntryChildrenAdd(a, b[..|b| - 1]);
      assert (a + b)[..|a + b| - 1] == a + b[..|b| - 1];
    }
  }

  /** Hanging one more child on a node adds that child's count, and one for the child itself
      under a sequential node only; a leaf has none. */
  lemma ChildrenExactly(d: Declared, ms: seq<Node>, es: seq<Entry>, child: Node)
    ensures SequentialChildren(Plain(d)) == SequentialChildren(Sequential(d, [])) == SequentialChildren(Bundle(d, [])) == 0
    ensures SequentialChildren(Sequential(d, ms + [child])) == SequentialChildren(Sequential(d, ms)) + 1 + SequentialChildren(child)
    ensures SequentialChildren(Bundle(d, es + [Entry(child)])) == SequentialChildren(Bundle(d, es)) + SequentialChildren(child)
  {
    ChildrenAdd(ms, [child]);
    EntryChildrenAdd(es, [Entry(child)]);
    assert [child][..0] == [] && [Entry(child)][..0] == [];
  }
}
