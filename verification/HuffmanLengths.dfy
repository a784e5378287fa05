/** `build_huffman_code_lengths`: the lengths it returns form a complete code, and no other code is shorter. */
module HuffmanLengths {
  import opened Options
  import opened Sums
  import opened Format
  import opened Canonical
  import opened CodeLengths
  import opened MinimalMerge

  // ---- A tree fills the code space --------------------------------------------------------------

  lemma {:induction false} DepthAtLeast(t: Tree, s: nat, d: nat)
    requires d <= U8_MAX
    ensures d <= Depth(t, s, d) <= U8_MAX
  {
    match t
    case Leaf(_) =>
    case Fork(l, r) =>
      DepthAtLeast(l, s, SatInc8(d));
      DepthAtLeast(r, s, SatInc8(d));
  }

  lemma {:induction false} SomeSymbol(t: Tree) returns (s: nat)
    ensures s in Symbols(t)
  {
    match t
    case Leaf(x) => s := x;
    case Fork(l, _) => s := SomeSymbol(l);
  }

  /** The symbols of a subtree below depth `d` take exactly the space of one code of `d` bits. */
  lemma {:induction false} TreeShare(t: Tree, d: nat, lengths: seq<nat>, m: nat)
    requires Distinct(t) && m < U8_MAX && d <= U8_MAX
    requires forall s :: s in Symbols(t) ==> s < |lengths| && lengths[s] == Depth(t, s, d) <= m
    ensures d <= m && Sum(Symbols(t), Share(lengths, m)) == Pow2(m - d)
  {
    hide Depth, Sum;
    var f := Share(lengths, m);
    match t
    case Leaf(s) =>
      LeafDepthIs(s, d);
      SumOne(s, f);
    case Fork(l, r) =>
      ForkDepths(t, d);
      var s := SomeSymbol(l);
      DepthAtLeast(l, s, SatInc8(d));
      TreeShare(l, SatInc8(d), lengths, m);
      TreeShare(r, SatInc8(d), lengths, m);
      SumUnion(Symbols(l), Symbols(r), f);
  }

  lemma LeafDepthIs(s: nat, d: nat)
    ensures Depth(Leaf(s), s, d) == d && s in Symbols(Leaf(s))
  {
  }

  lemma {:induction false} KraftSumAppend(lengths: seq<nat>, x: nat, m: nat)
    ensures KraftSum(lengths + [x], m) == KraftSum(lengths, m) + if 1 <= x <= m then Pow2(m - x) else 0
    decreases m
  {
    if m > 0 {
      KraftSumAppend(lengths, x, m - 1);
      assert (lengths + [x])[..|lengths|] == lengths;
    }
  }

  function Positive(lengths: seq<nat>): set<nat> {
    set s | 0 <= s < |lengths| && lengths[s] > 0
  }

  /** The Kraft sum by code lengths is the sum over the symbols. */
  lemma {:induction false} KraftBySymbol(lengths: seq<nat>, m: nat)
    requires forall i :: 0 <= i < |lengths| ==> lengths[i] <= m
    ensures Sum(Positive(lengths), Share(lengths, m)) == KraftSum(lengths, m)
    decreases |lengths|
  {
    hide Sum, Pow2;
    if lengths == [] {
      KraftOfNothing(m);
      SumOfNothing(Share(lengths, m));
      assert Positive(lengths) == {};
    } else {
      var n := |lengths| - 1;
      var init, x := lengths[..n], lengths[n];
      assert lengths == init + [x];
      KraftBySymbol(init, m);
      KraftSumAppend(init, x, m);
      SumSame(Positive(init), Share(init, m), Share(lengths, m));
      if x > 0 {
        assert Positive(lengths) == Positive(init) + {n};
        SumAdd<nat>(Positive(init), Share(lengths, m), n);
      } else {
        assert Positive(lengths) == Positive(init);
      }
    }
  }

  lemma {:induction false} KraftOfNothing(m: nat)
    ensures KraftSum([], m) == 0
    decreases m
  {
    if m > 0 {
      KraftOfNothing(m - 1);
    }
  }

  lemma SumOfNothing(f: nat -> int)
    ensures Sum<nat>({}, f) == 0
  {
  }

  // ---- Weights and costs of trees ---------------------------------------------------------------

  function Freq(freq: seq<nat>): nat -> int {
    (s: nat) => if s < |freq| then freq[s] else 0
  }

  function Weight(t: Tree, freq: seq<nat>): int {
    match t
    case Leaf(s) => Freq(freq)(s)
    case Fork(l, r) => Weight(l, freq) + Weight(r, freq)
  }

  /** The weights of all inner nodes together. */
  function MergeCost(t: Tree, freq: seq<nat>): int {
    match t
    case Leaf(_) => 0
    case Fork(l, r) => Weight(t, freq) + MergeCost(l, freq) + MergeCost(r, freq)
  }

  /** The length of the coded message without its extra bits. */
  ghost function MessageLength(used: set<nat>, freq: seq<nat>, lengths: seq<nat>): int {
    Sum(used, Price(freq, lengths))
  }

  lemma OneDeeper(d: nat, wl: int, wr: int)
    ensures (d + 1) * wl + (d + 1) * wr == wl + wr + d * (wl + wr)
  {
  }

  lemma LeafCost(s: nat, d: nat, freq: seq<nat>, lengths: seq<nat>)
    requires s < |lengths| == |freq| && lengths[s] == d
    ensures Price(freq, lengths)(s) == MergeCost(Leaf(s), freq) + d * Weight(Leaf(s), freq)
  {
  }

  /** A tree's merge cost is its weighted depth. */
  lemma {:induction false} TreeCost(t: Tree, d: nat, freq: seq<nat>, lengths: seq<nat>, m: nat)
    requires Distinct(t) && m < U8_MAX && d <= U8_MAX && |lengths| == |freq|
    requires forall s :: s in Symbols(t) ==> s < |lengths| && lengths[s] == Depth(t, s, d) <= m
    ensures Sum(Symbols(t), Price(freq, lengths)) == MergeCost(t, freq) + d * Weight(t, freq)
  {
    hide Depth, Sum, Price;
    var f := Price(freq, lengths);
    match t
    case Leaf(s) =>
      LeafDepthIs(s, d);
      SumOne(s, f);
      LeafCost(s, d, freq, lengths);
    case Fork(l, r) =>
      ForkDepths(t, d);
      var s := SomeSymbol(l);
      DepthAtLeast(l, s, SatInc8(d));
      TreeCost(l, d + 1, freq, lengths, m);
      TreeCost(r, d + 1, freq, lengths, m);
      SumUnion(Symbols(l), Symbols(r), f);
      OneDeeper(d, Weight(l, freq), Weight(r, freq));
  }

  // ---- The merging loop -------------------------------------------------------------------------

  function WeightOf(weights: seq<nat>): nat -> int {
    (x: nat) => if x < |weights| then weights[x] else 0
  }

  function CostOf(trees: seq<Tree>, freq: seq<nat>): nat -> int {
    (x: nat) => if x < |trees| then MergeCost(trees[x], freq) else 0
  }

  /** The heap's weights are the weights of its trees, they do not saturate, and `acc` is what merging cost so far. */
  ghost predicate Weighed(heap: set<nat>, trees: seq<Tree>, weights: seq<nat>, freq: seq<nat>, acc: int) {
    && |trees| == |weights| && InRange(heap, |trees|)
    && (forall x :: x in heap ==> weights[x] == Weight(trees[x], freq))
    && Sum(heap, WeightOf(weights)) <= U32_MAX
    && Sum(heap, CostOf(trees, freq)) == acc
  }

  lemma MergeWeighed(heap: set<nat>, trees: seq<Tree>, weights: seq<nat>, freq: seq<nat>, acc: int, a: nat, b: nat)
    requires Weighed(heap, trees, weights, freq, acc) && a in heap && b in heap && a != b
    ensures var w := weights[a] + weights[b];
            && SatAdd32(weights[a], weights[b]) == w
            && Weighed(heap - {a} - {b} + {|trees|}, trees + [Fork(trees[a], trees[b])], weights + [w], freq, acc + w)
  {
    hide Sum, Weight;
    var m: nat, rest: set<nat> := |trees|, heap - {a} - {b};
    var w := weights[a] + weights[b];
    var trees', weights' := trees + [Fork(trees[a], trees[b])], weights + [w];
    var f, f' := WeightOf(weights), WeightOf(weights');
    SumTwo(heap, f, a, b);
    SumNonNegative(rest, f);
    SumSame(rest, f, f');
    SumAdd<nat>(rest, f', m);
    var g, g' := CostOf(trees, freq), CostOf(trees', freq);
    SumTwo(heap, g, a, b);
    SumSame(rest, g, g');
    SumAdd<nat>(rest, g', m);
    ForkCost(trees[a], trees[b], freq);
  }

  lemma ForkCost(l: Tree, r: Tree, freq: seq<nat>)
    ensures Weight(Fork(l, r), freq) == Weight(l, freq) + Weight(r, freq)
    ensures MergeCost(Fork(l, r), freq) == Weight(l, freq) + Weight(r, freq) + MergeCost(l, freq) + MergeCost(r, freq)
  {
  }

  /** Every bound for the present heap gives a bound for the heap at the start. */
  ghost predicate BoundsStart(heap: set<nat>, weights: seq<nat>, heap0: set<nat>, weights0: seq<nat>, acc: int) {
    forall n: nat, c: int :: LowerBound(heap, weights, n, c) ==> LowerBound(heap0, weights0, n, c + acc)
  }

  lemma MergeBounds(heap: set<nat>, weights: seq<nat>, heap0: set<nat>, weights0: seq<nat>, acc: int, a: nat, b: nat)
    requires InRange(heap, |weights|) && First(weights, a, heap) && First(weights, b, heap - {a})
    requires BoundsStart(heap, weights, heap0, weights0, acc)
    ensures var w := weights[a] + weights[b];
            BoundsStart(heap - {a} - {b} + {|weights|}, weights + [w], heap0, weights0, acc + w)
  {
    hide LowerBound;
    var w := weights[a] + weights[b];
    assert Lightest(a, heap, weights) && Lightest(b, heap - {a}, weights) by {
      assert forall y :: y in heap ==> Before(weights, a, y);
      assert forall y :: y in heap - {a} ==> Before(weights, b, y);
    }
    forall n: nat, c: int | LowerBound(heap - {a} - {b} + {|weights|}, weights + [w], n, c)
      ensures LowerBound(heap0, weights0, n, c + (acc + w))
    {
      MergeBound(heap, weights, n, a, b, c);
      assert c + weights[a] + weights[b] + acc == c + (acc + w);
    }
  }

  /** What holds before every turn of the merging loop, besides the forest. */
  ghost predicate Optimal(heap: set<nat>, trees: seq<Tree>, weights: seq<nat>, freq: seq<nat>,
                          heap0: set<nat>, weights0: seq<nat>, acc: int) {
    Weighed(heap, trees, weights, freq, acc) && BoundsStart(heap, weights, heap0, weights0, acc)
  }

  method MergeAll(heap0: set<nat>, nodes0: seq<Node>, weights0: seq<nat>, ghost trees0: seq<Tree>,
                  ghost used: set<nat>, ghost freq: seq<nat>)
    returns (rootIdx: nat, nodes: seq<Node>, ghost trees: seq<Tree>, ghost acc: int)
    requires heap0 != {} && Consistent(heap0, nodes0, trees0, weights0, used)
    ensures Matches(nodes, trees) && rootIdx < |trees| && Forest({rootIdx}, trees, used)
    ensures Weighed(heap0, trees0, weights0, freq, 0) ==>
              acc == MergeCost(trees[rootIdx], freq) && forall n: nat :: LowerBound(heap0, weights0, n, acc)
  {
    hide Forest, Matches, Weighed, LowerBound, MergeCost, SatAdd32, Consistent, Merging, First;
    var heap: set<nat>, weights: seq<nat> := heap0, weights0;
    nodes, trees, acc := nodes0, trees0, 0;
    ghost var good := Weighed(heap0, trees0, weights0, freq, 0);
    MergingStart(heap0, nodes0, trees0, weights0, used, freq);
    while |heap| > 1
      invariant heap != {} && Merging(heap, nodes, trees, weights, used, freq, heap0, weights0, acc, good)
      decreases |heap|
    {
      MergingRange(heap, nodes, trees, weights, used, freq, heap0, weights0, acc, good);
      var a, restA := Pop(weights, heap);
      FirstIsIn(weights, a, heap);
      HeapRest(heap, a);
      var b, rest := Pop(weights, restA);
      FirstIsIn(weights, b, restA);
      var w := SatAdd32(weights[a], weights[b]);
      MergingTurn(heap, nodes, trees, weights, used, freq, heap0, weights0, acc, good, a, b);
      HeapShrinks(heap, a, b, |nodes|);
      acc := acc + w;
      heap := rest + {|nodes|};
      nodes := nodes + [InnerNode(a, b)];
      weights := weights + [w];
      trees := trees + [Fork(trees[a], trees[b])];
    }
    MergingRange(heap, nodes, trees, weights, used, freq, heap0, weights0, acc, good);
    var none;
    rootIdx, none := Pop(weights, heap);
    FirstIsIn(weights, rootIdx, heap);
    OnlyOne(heap, rootIdx);
    MergingDone(rootIdx, nodes, trees, weights, used, freq, heap0, weights0, acc, good);
  }

  /** What holds before every turn: the forest and, when no weight can saturate, the costs and bounds. */
  ghost predicate Merging(heap: set<nat>, nodes: seq<Node>, trees: seq<Tree>, weights: seq<nat>, used: set<nat>,
                          freq: seq<nat>, heap0: set<nat>, weights0: seq<nat>, acc: int, good: bool) {
    Consistent(heap, nodes, trees, weights, used)
        && (good ==> Optimal(heap, trees, weights, freq, heap0, weights0, acc))
  }

  lemma MergingStart(heap: set<nat>, nodes: seq<Node>, trees: seq<Tree>, weights: seq<nat>, used: set<nat>,
      freq: seq<nat>)
    requires Consistent(heap, nodes, trees, weights, used)
    ensures Merging(heap, nodes, trees, weights, used, freq, heap, weights, 0, Weighed(heap, trees, weights, freq, 0))
  {
    hide Consistent, Optimal, Weighed;
    OptimalStart(heap, trees, weights, freq);
  }

  lemma MergingRange(heap: set<nat>, nodes: seq<Node>, trees: seq<Tree>, weights: seq<nat>, used: set<nat>,
                     freq: seq<nat>, heap0: set<nat>, weights0: seq<nat>, acc: int, good: bool)
    requires Merging(heap, nodes, trees, weights, used, freq, heap0, weights0, acc, good)
    ensures InRange(heap, |weights|) && |trees| == |weights| == |nodes|
  {
    hide Consistent, Optimal;
    ConsistentRange(heap, nodes, trees, weights, used);
  }

  lemma MergingTurn(heap: set<nat>, nodes: seq<Node>, trees: seq<Tree>, weights: seq<nat>, used: set<nat>,
                    freq: seq<nat>, heap0: set<nat>, weights0: seq<nat>, acc: int, good: bool, a: nat, b: nat)
    requires Merging(heap, nodes, trees, weights, used, freq, heap0, weights0, acc, good)
    requires InRange(heap, |weights|) && |trees| == |weights| == |nodes|
    requires First(weights, a, heap) && First(weights, b, heap - {a})
    ensures var w := SatAdd32(weights[a], weights[b]);
            Merging(heap - {a} - {b} + {|nodes|}, nodes + [InnerNode(a, b)], trees + [Fork(trees[a], trees[b])],
                    weights + [w], used, freq, heap0, weights0, acc + w, good)
  {
    hide Consistent, Optimal, SatAdd32;
    var w := SatAdd32(weights[a], weights[b]);
    MergeConsistent(heap, nodes, trees, weights, used, a, b, w);
    if good {
      MergeOptimal(heap, trees, weights, freq, heap0, weights0, acc, a, b);
    }
  }

  lemma MergingDone(root: nat, nodes: seq<Node>, trees: seq<Tree>, weights: seq<nat>, used: set<nat>,
                    freq: seq<nat>, heap0: set<nat>, weights0: seq<nat>, acc: int, good: bool)
    requires Merging({root}, nodes, trees, weights, used, freq, heap0, weights0, acc, good)
    ensures Matches(nodes, trees) && root < |trees| && Forest({root}, trees, used)
    ensures good ==> acc == MergeCost(trees[root], freq) && forall n: nat :: LowerBound(heap0, weights0, n, acc)
  {
    hide Consistent, Optimal, Matches, Forest, MergeCost, LowerBound;
    ConsistentRange({root}, nodes, trees, weights, used);
    ConsistentForest({root}, nodes, trees, weights, used);
    if good {
      RootBound(root, trees, weights, freq, heap0, weights0, acc);
    }
  }

  lemma FirstIsIn(weights: seq<nat>, x: nat, heap: set<nat>)
    requires InRange(heap, |weights|) && First(weights, x, heap)
    ensures x in heap
  {
  }

  lemma HeapRest(heap: set<nat>, a: nat)
    requires a in heap && |heap| > 1
    ensures heap - {a} != {}
  {
    assert |heap - {a}| == |heap| - 1;
  }

  lemma OnlyOne(heap: set<nat>, x: nat)
    requires x in heap && |heap| <= 1
    ensures heap == {x}
  {
    assert |heap - {x}| == 0;
  }

  lemma HeapShrinks(heap: set<nat>, a: nat, b: nat, m: nat)
    requires a in heap && b in heap - {a}
    ensures heap - {a} - {b} + {m} != {} && |heap - {a} - {b} + {m}| < |heap|
  {
    assert |heap - {a} - {b}| == |heap| - 2;
  }

  lemma OptimalStart(heap: set<nat>, trees: seq<Tree>, weights: seq<nat>, freq: seq<nat>)
    ensures Weighed(heap, trees, weights, freq, 0) ==> Optimal(heap, trees, weights, freq, heap, weights, 0)
  {
    hide Weighed, BoundsStart;
    BoundsSelf(heap, weights);
  }

  /** One merge of the two lightest: its cost is their weight together. */
  lemma MergeOptimal(heap: set<nat>, trees: seq<Tree>, weights: seq<nat>, freq: seq<nat>,
                     heap0: set<nat>, weights0: seq<nat>, acc: int, a: nat, b: nat)
    requires InRange(heap, |weights|) && |trees| == |weights| && First(weights, a, heap)
    requires First(weights, b, heap - {a})
    requires Optimal(heap, trees, weights, freq, heap0, weights0, acc)
    ensures var w := SatAdd32(weights[a], weights[b]);
            Optimal(heap - {a} - {b} + {|trees|}, trees + [Fork(trees[a], trees[b])], weights + [w], freq,
                    heap0, weights0, acc + w)
  {
    hide Weighed, BoundsStart;
    MergeWeighed(heap, trees, weights, freq, acc, a, b);
    MergeBounds(heap, weights, heap0, weights0, acc, a, b);
  }

  lemma ConsistentForest(heap: set<nat>, nodes: seq<Node>, trees: seq<Tree>, weights: seq<nat>, used: set<nat>)
    requires Consistent(heap, nodes, trees, weights, used)
    ensures Matches(nodes, trees) && Forest(heap, trees, used)
  {
    hide Matches, Forest;
  }

  lemma ConsistentRange(heap: set<nat>, nodes: seq<Node>, trees: seq<Tree>, weights: seq<nat>, used: set<nat>)
    requires Consistent(heap, nodes, trees, weights, used)
    ensures InRange(heap, |trees|) && |trees| == |weights| == |nodes|
  {
  }

  lemma BoundsSelf(heap: set<nat>, weights: seq<nat>)
    ensures BoundsStart(heap, weights, heap, weights, 0)
  {
  }

  lemma RootBound(root: nat, trees: seq<Tree>, weights: seq<nat>, freq: seq<nat>, heap0: set<nat>, weights0: seq<nat>,
      acc: int)
    requires Optimal({root}, trees, weights, freq, heap0, weights0, acc)
    ensures root < |trees| && acc == MergeCost(trees[root], freq)
          && forall n: nat :: LowerBound(heap0, weights0, n, acc)
  {
    hide LowerBound, Sum;
    SumOne(root, CostOf(trees, freq));
    forall n: nat
      ensures LowerBound(heap0, weights0, n, acc)
    {
      NothingToBound({root}, weights, n);
      assert LowerBound(heap0, weights0, n, 0 + acc);
    }
  }

  // ---- The seeds and the symbols they stand for -------------------------------------------------

  function SymbolsOf(trees: seq<Tree>, k: nat): set<nat>
    requires k <= |trees| && forall i :: 0 <= i < |trees| ==> trees[i].Leaf?
  {
    if k == 0 then {} else SymbolsOf(trees, k - 1) + {trees[k - 1].sym}
  }

  lemma {:induction false} SymbolsOfMember(trees: seq<Tree>, k: nat, s: nat)
    requires k <= |trees| && forall i :: 0 <= i < |trees| ==> trees[i].Leaf?
    ensures s in SymbolsOf(trees, k) <==> exists i :: 0 <= i < k && trees[i] == Leaf(s)
  {
    if k > 0 {
      SymbolsOfMember(trees, k - 1, s);
      if s == trees[k - 1].sym {
        assert trees[k - 1] == Leaf(s);
      }
    }
  }

  /** A sum over the seeds is a sum over their symbols. */
  lemma {:induction false} SeedSum(trees: seq<Tree>, k: nat, f: nat -> int, g: nat -> int)
    requires k <= |trees| && forall i :: 0 <= i < |trees| ==> trees[i].Leaf? && g(i) == f(trees[i].sym)
    requires forall i, j :: 0 <= i < j < |trees| ==> trees[i] != trees[j]
    ensures Sum(Below(k), g) == Sum(SymbolsOf(trees, k), f)
  {
    hide Sum;
    if k == 0 {
      SumOfNothing(f);
      SumOfNothing(g);
    } else {
      SeedSum(trees, k - 1, f, g);
      SymbolsOfMember(trees, k - 1, trees[k - 1].sym);
      assert trees[k - 1].sym !in SymbolsOf(trees, k - 1) by {
        if i :| 0 <= i < k - 1 && trees[i] == Leaf(trees[k - 1].sym) {
          assert false;
        }
      }
      SumAdd<nat>(Below(k - 1), g, k - 1);
      SumAdd<nat>(SymbolsOf(trees, k - 1), f, trees[k - 1].sym);
    }
  }

  lemma SeededSymbols(freq: seq<nat>, nodes: seq<Node>, trees: seq<Tree>, weights: seq<nat>)
    requires Seeded(freq, |freq|, nodes, trees, weights)
    ensures forall i :: 0 <= i < |trees| ==>
              trees[i].Leaf? && trees[i].sym in Used(freq) && weights[i] == freq[trees[i].sym]
    ensures SymbolsOf(trees, |trees|) == Used(freq)
  {
    hide SymbolsOf;
    forall i | 0 <= i < |trees|
      ensures trees[i].Leaf? && trees[i].sym in Used(freq) && weights[i] == freq[trees[i].sym]
    {
      assert SeededAt(freq, |freq|, nodes[i], trees[i], weights[i]);
    }
    forall s: nat
      ensures s in SymbolsOf(trees, |trees|) <==> s in Used(freq)
    {
      SymbolsOfMember(trees, |trees|, s);
    }
  }

  /** At the start the weights are right as long as they cannot saturate. */
  lemma SeededWeighed(freq: seq<nat>, nodes: seq<Node>, trees: seq<Tree>, weights: seq<nat>)
    requires Seeded(freq, |freq|, nodes, trees, weights) && Sum(Used(freq), Freq(freq)) <= U32_MAX
    ensures Weighed(Below(|trees|), trees, weights, freq, 0)
  {
    hide Sum, Used, Below, SymbolsOf, Weight, MergeCost;
    SeededSymbols(freq, nodes, trees, weights);
    SeededApart(freq, nodes, trees, weights);
    forall i | 0 <= i < |trees|
      ensures weights[i] == Weight(trees[i], freq) && MergeCost(trees[i], freq) == 0
    {
      SeedWeight(freq, nodes[i], trees[i], weights[i]);
    }
    SeedSum(trees, |trees|, Freq(freq), WeightOf(weights));
    SeedSum(trees, |trees|, Zero(), CostOf(trees, freq));
    ZeroSum(SymbolsOf(trees, |trees|));
  }

  lemma SeedWeight(freq: seq<nat>, node: Node, tree: Tree, weight: nat)
    requires SeededAt(freq, |freq|, node, tree, weight)
    ensures weight == Weight(tree, freq) && MergeCost(tree, freq) == 0
  {
  }

  lemma SeededApart(freq: seq<nat>, nodes: seq<Node>, trees: seq<Tree>, weights: seq<nat>)
    requires Seeded(freq, |freq|, nodes, trees, weights)
    ensures |trees| == |weights| == |nodes| && forall i, j :: 0 <= i < j < |trees| ==> trees[i] != trees[j]
    ensures forall s :: s in Used(freq) ==> s < |freq| && freq[s] > 0
  {
  }

  function Zero(): nat -> int {
    (x: nat) => 0
  }

  lemma {:induction false} ZeroSum(s: set<nat>)
    ensures Sum(s, Zero()) == 0
    decreases |s|
  {
    if x :| x in s {
      SumPick(s, Zero(), x);
      ZeroSum(s - {x});
    }
  }

  /** A bound for the seeds is a bound for every code for the symbols. */
  lemma SeededBound(freq: seq<nat>, nodes: seq<Node>, trees: seq<Tree>, weights: seq<nat>, n: nat, c: int,
      lengths: seq<nat>)
    requires Seeded(freq, |freq|, nodes, trees, weights) && LowerBound(Below(|trees|), weights, n, c)
    requires |lengths| == |freq| && Valid(Used(freq), lengths, n)
    ensures MessageLength(Used(freq), freq, lengths) >= c
  {
    hide Sum, Seeded, Used, Below, SymbolsOf;
    SeededSymbols(freq, nodes, trees, weights);
    SeededApart(freq, nodes, trees, weights);
    var lens := seq(|trees|, i requires 0 <= i < |trees| => lengths[trees[i].sym]);
    SeedSum(trees, |trees|, Share(lengths, n), Share(lens, n));
    SeedSum(trees, |trees|, Price(freq, lengths), Price(weights, lens));
    assert Valid(Below(|trees|), lens, n);
  }

  // ---- The result -------------------------------------------------------------------------------

  lemma RootSymbols(root: nat, trees: seq<Tree>, used: set<nat>)
    requires Forest({root}, trees, used)
    ensures root < |trees| && Distinct(trees[root]) && Symbols(trees[root]) == used
  {
    forall s | s in used
      ensures s in Symbols(trees[root])
    {
      assert Covered({root}, trees, s);
    }
  }

  lemma LeafHasOneSymbol(t: Tree)
    ensures t.Leaf? ==> |Symbols(t)| == 1
  {
  }

  /** With two symbols or more every depth is at least one, so the lengths are the depths. */
  lemma DepthsPositive(t: Tree)
    requires Distinct(t) && |Symbols(t)| >= 2
    ensures forall s :: s in Symbols(t) ==> Depth(t, s, 0) >= 1
  {
    LeafHasOneSymbol(t);
    forall s | s in Symbols(t)
      ensures Depth(t, s, 0) >= 1
    {
      DepthAtLeast(t.l, s, 1);
      DepthAtLeast(t.r, s, 1);
    }
  }

  /** The lengths of a complete code for exactly the symbols that occur. */
  ghost predicate CodeFor(freq: seq<nat>, lengths: seq<nat>) {
    |lengths| == |freq| && forall s :: 0 <= s < |freq| ==> (lengths[s] > 0 <==> freq[s] > 0)
  }

  /** What the depths of the final tree amount to. */
  lemma LengthsRight(t: Tree, freq: seq<nat>, lengths: seq<nat>, m: nat)
    requires Distinct(t) && Symbols(t) == Used(freq) && |Used(freq)| >= 2 && |lengths| == |freq|
    requires Assigned(lengths, t, {}) && forall s :: 0 <= s < |lengths| ==> lengths[s] <= m
    ensures CodeFor(freq, lengths)
    ensures m < U8_MAX ==>
              KraftSum(lengths, m) == Pow2(m) && MessageLength(Used(freq), freq, lengths) == MergeCost(t, freq)
  {
    hide Depth, Sum, MergeCost, Weight, Distinct;
    DepthsPositive(t);
    forall s | 0 <= s < |freq|
      ensures lengths[s] > 0 <==> s in Used(freq)
    {
      assert s in Used(freq) <==> s in Symbols(t);
    }
    if m < U8_MAX {
      TreeShare(t, 0, lengths, m);
      TreeCost(t, 0, freq, lengths, m);
      KraftBySymbol(lengths, m);
      assert Positive(lengths) == Used(freq);
    }
  }

  /** The tree has exactly the symbols in use as leaves, and no code is shorter than its depths, as long as
      the weights cannot saturate. */
  ghost predicate BestTree(t: Tree, freq: seq<nat>) {
    && Distinct(t) && Symbols(t) == Used(freq)
    && (Sum(Used(freq), Freq(freq)) <= U32_MAX ==>
          forall n: nat, lengths: seq<nat> :: |lengths| == |freq| && Valid(Used(freq), lengths, n) ==>
            MergeCost(t, freq) <= MessageLength(Used(freq), freq, lengths))
  }

  /** Whatever bound below 255 the lengths keep, their code is complete for it and as cheap as the tree. */
  ghost predicate CompleteWithin(freq: seq<nat>, lengths: seq<nat>, t: Tree)
    requires |lengths| == |freq|
  {
    forall m: nat :: m < U8_MAX && AllAtMost(lengths, m) ==>
      KraftSum(lengths, m) == Pow2(m) && MessageLength(Used(freq), freq, lengths) == MergeCost(t, freq)
  }

  predicate AllAtMost(lengths: seq<nat>, m: nat) {
    forall s :: 0 <= s < |lengths| ==> lengths[s] <= m
  }

  lemma LengthsComplete(t: Tree, freq: seq<nat>, lengths: seq<nat>)
    requires Distinct(t) && Symbols(t) == Used(freq) && |Used(freq)| >= 2 && |lengths| == |freq|
    requires Assigned(lengths, t, {})
    ensures CompleteWithin(freq, lengths, t)
  {
    hide Distinct, Symbols, Assigned, MergeCost, KraftSum, MessageLength, CodeFor, Pow2, Used;
    forall m: nat | m < U8_MAX && AllAtMost(lengths, m)
      ensures KraftSum(lengths, m) == Pow2(m) && MessageLength(Used(freq), freq, lengths) == MergeCost(t, freq)
    {
      LengthsRight(t, freq, lengths, m);
    }
  }

  ghost predicate TooDeep(t: Tree, maxBits: nat) {
    exists s :: s in Symbols(t) && Depth(t, s, 0) > maxBits
  }

  /** At most one symbol in use: it gets one bit. Otherwise an optimal tree is built; it is refused exactly
      when it is deeper than the limit, and else its depths are the lengths. At the limit 255 the depth counter may
      have stopped, and nothing is refused. */
  method BuildHuffmanCodeLengths(freq: seq<nat>, maxBits: nat) returns (r: Option<seq<nat>>, ghost tree: Tree)
    requires maxBits <= U8_MAX
    ensures r.Some? ==> CodeFor(freq, r.value)
    ensures |Used(freq)| <= 1 ==> r.Some? && forall s :: 0 <= s < |freq| ==> r.value[s] <= 1
    ensures |Used(freq)| >= 2 ==> BestTree(tree, freq) && (r.None? <==> TooDeep(tree, maxBits))
    ensures |Used(freq)| >= 2 && r.Some? ==> forall s :: 0 <= s < |freq| ==> r.value[s] <= maxBits
    ensures |Used(freq)| >= 2 && r.Some? && maxBits < U8_MAX ==>
              && KraftSum(r.value, maxBits) == Pow2(maxBits)
              && MessageLength(Used(freq), freq, r.value) == MergeCost(tree, freq)
    ensures |Used(freq)| >= 2 && r.Some? ==> CompleteWithin(freq, r.value, tree)
  {
    hide Forest, Matches, Weighed, LowerBound, MergeCost, Seeded, Below, Sum, Assigned, Valid, Distinct, Symbols;
    hide TooDeep, BestTree, MaxOf, CodeFor, CompleteWithin;
    var heap, nodes, weights, trees0 := SeedHeap(freq);
    SeedCount(freq, nodes, trees0, weights);
    tree := Leaf(0);
    if heap == {} {
      NoneUsed(freq);
      return Some(Repeat(0, |freq|)), tree;
    }
    if |heap| == 1 {
      OneUsed(freq, nodes[0].symbol);
      return Some(Repeat(0, |freq|)[nodes[0].symbol := 1]), tree;
    }
    SeededForest(freq, nodes, trees0, weights);
    SeededApart(freq, nodes, trees0, weights);
    var rootIdx, allNodes, trees, acc := MergeAll(heap, nodes, weights, trees0, Used(freq), freq);
    RootSymbols(rootIdx, trees, Used(freq));
    tree := trees[rootIdx];
    RootIsBest(tree, freq, nodes, trees0, weights, acc);
    var lengths, maxDepth := ReadDepths(allNodes, rootIdx, |freq|, trees);
    DeepestLength(tree, lengths, maxDepth, maxBits);
    if maxDepth > maxBits {
      return None, tree;
    }
    LengthsRight(tree, freq, lengths, maxBits);
    LengthsComplete(tree, freq, lengths);
    return Some(lengths), tree;
  }

  lemma NoneUsed(freq: seq<nat>)
    requires |Used(freq)| == 0
    ensures CodeFor(freq, Repeat(0, |freq|))
  {
    var none := Repeat(0, |freq|);
    forall s | 0 <= s < |freq|
      ensures none[s] > 0 <==> freq[s] > 0
    {
      assert s !in Used(freq);
    }
  }

  lemma OneUsed(freq: seq<nat>, sym: nat)
    requires |Used(freq)| == 1 && sym in Used(freq)
    ensures sym < |freq| && CodeFor(freq, Repeat(0, |freq|)[sym := 1])
  {
    assert |Used(freq) - {sym}| == 0;
    var one := Repeat(0, |freq|)[sym := 1];
    forall s | 0 <= s < |freq|
      ensures one[s] > 0 <==> freq[s] > 0
    {
      assert s in Used(freq) <==> freq[s] > 0;
      assert s !in Used(freq) - {sym};
    }
  }

  lemma RootIsBest(t: Tree, freq: seq<nat>, nodes: seq<Node>, trees: seq<Tree>, weights: seq<nat>, acc: int)
    requires Seeded(freq, |freq|, nodes, trees, weights) && Distinct(t) && Symbols(t) == Used(freq)
    requires Weighed(Below(|trees|), trees, weights, freq, 0) ==>
               acc == MergeCost(t, freq) && forall n: nat :: LowerBound(Below(|trees|), weights, n, acc)
    ensures BestTree(t, freq)
  {
    hide Weighed, LowerBound, MergeCost, Seeded, Below, Sum, Valid, Distinct, Symbols, MessageLength;
    if Sum(Used(freq), Freq(freq)) <= U32_MAX {
      SeededWeighed(freq, nodes, trees, weights);
      forall n: nat, other: seq<nat> | |other| == |freq| && Valid(Used(freq), other, n)
        ensures MergeCost(t, freq) <= MessageLength(Used(freq), freq, other)
      {
        SeededBound(freq, nodes, trees, weights, n, acc, other);
      }
    }
  }

  lemma DeepestLength(t: Tree, lengths: seq<nat>, maxDepth: nat, maxBits: nat)
    requires Assigned(lengths, t, {}) && MaxOf(maxDepth, lengths) && |Symbols(t)| >= 2 && Distinct(t)
    requires forall s :: s in Symbols(t) ==> s < |lengths|
    ensures TooDeep(t, maxBits) <==> maxDepth > maxBits
    ensures forall s :: 0 <= s < |lengths| ==> lengths[s] <= maxDepth
  {
    hide Depth, Distinct;
    DepthsPositive(t);
    if maxDepth > maxBits {
      var s :| 0 <= s < |lengths| && lengths[s] == maxDepth;
      assert s in Symbols(t) && Depth(t, s, 0) == maxDepth;
    }
    if TooDeep(t, maxBits) {
      var s :| s in Symbols(t) && Depth(t, s, 0) > maxBits;
      assert lengths[s] == Depth(t, s, 0);
    }
  }

  /** The seeds are as many as the symbols in use; a single one is the only symbol in use. */
  lemma SeedCount(freq: seq<nat>, nodes: seq<Node>, trees: seq<Tree>, weights: seq<nat>)
    requires Seeded(freq, |freq|, nodes, trees, weights)
    ensures |Below(|trees|)| == |Used(freq)| && |nodes| == |trees|
    ensures |trees| >= 1 ==> nodes[0].LeafNode? && nodes[0].symbol in Used(freq)
  {
    hide SymbolsOf;
    SeededSymbols(freq, nodes, trees, weights);
    SymbolCount(trees, |trees|);
    if |trees| >= 1 {
      assert SeededAt(freq, |freq|, nodes[0], trees[0], weights[0]);
    }
  }

  lemma {:induction false} SymbolCount(trees: seq<Tree>, k: nat)
    requires k <= |trees| && forall i :: 0 <= i < |trees| ==> trees[i].Leaf?
    requires forall i, j :: 0 <= i < j < |trees| ==> trees[i] != trees[j]
    ensures |SymbolsOf(trees, k)| == k
  {
    if k > 0 {
      SymbolCount(trees, k - 1);
      SymbolsOfMember(trees, k - 1, trees[k - 1].sym);
    }
  }
}
