/** Huffman code lengths: merging the two lightest trees until one is left, then reading off the depths. */
module CodeLengths {
  import opened Format

  const U32_MAX: nat := 0xFFFF_FFFF
  const U8_MAX: nat := 255

  /** A node of the forest: a symbol, or two earlier nodes. */
  datatype Node = LeafNode(symbol: nat) | InnerNode(left: nat, right: nat)

  datatype HeapItem = HeapItem(weight: nat, idx: nat)

  function SatAdd32(a: nat, b: nat): nat {
    if a + b > U32_MAX then U32_MAX else a + b
  }

  function SatInc8(d: nat): nat {
    if d >= U8_MAX then U8_MAX else d + 1
  }

  /** The trees that the nodes stand for. */
  datatype Tree = Leaf(sym: nat) | Fork(l: Tree, r: Tree)

  function Symbols(t: Tree): set<nat> {
    match t
    case Leaf(s) => {s}
    case Fork(l, r) => Symbols(l) + Symbols(r)
  }

  predicate Distinct(t: Tree) {
    match t
    case Leaf(_) => true
    case Fork(l, r) => Distinct(l) && Distinct(r) && Symbols(l) !! Symbols(r)
  }

  function Size(t: Tree): nat {
    match t
    case Leaf(_) => 1
    case Fork(l, r) => 1 + Size(l) + Size(r)
  }

  /** The depth of a symbol below depth `d`, counted as the source does. */
  function Depth(t: Tree, s: nat, d: nat): nat {
    match t
    case Leaf(_) => d
    case Fork(l, r) => if s in Symbols(l) then Depth(l, s, SatInc8(d)) else Depth(r, s, SatInc8(d))
  }

  predicate Matches(nodes: seq<Node>, trees: seq<Tree>) {
    && |nodes| == |trees|
    && forall i :: 0 <= i < |nodes| ==> MatchesAt(nodes, trees, i)
  }

  predicate MatchesAt(nodes: seq<Node>, trees: seq<Tree>, i: nat)
    requires i < |nodes| == |trees|
  {
    match nodes[i]
    case LeafNode(s) => trees[i] == Leaf(s)
    case InnerNode(l, r) => l < i && r < i && trees[i] == Fork(trees[l], trees[r])
  }

  // ---- The heap ---------------------------------------------------------------------------------

  // The heap holds node numbers; `weights[i]` is the weight that node `i` was pushed with.

  /** The order of the heap: lighter first, among equals the newer node first. */
  predicate Before(weights: seq<nat>, a: nat, b: nat)
    requires a < |weights| && b < |weights|
  {
    weights[a] < weights[b] || (weights[a] == weights[b] && a >= b)
  }

  predicate InRange(heap: set<nat>, n: nat) {
    forall x :: x in heap ==> x < n
  }

  predicate First(weights: seq<nat>, x: nat, heap: set<nat>)
    requires InRange(heap, |weights|)
  {
    x in heap && forall y :: y in heap ==> Before(weights, x, y)
  }

  method Pop(weights: seq<nat>, heap: set<nat>) returns (x: nat, rest: set<nat>)
    requires heap != {} && InRange(heap, |weights|)
    ensures First(weights, x, heap) && rest == heap - {x}
  {
    x :| x in heap;
    var todo := heap - {x};
    while todo != {}
      invariant x in heap && todo <= heap
      invariant forall y :: y in heap && y !in todo ==> Before(weights, x, y)
      decreases |todo|
    {
      var y :| y in todo;
      if Before(weights, y, x) {
        x := y;
      }
      todo := todo - {y};
    }
    rest := heap - {x};
  }

  predicate Covered(heap: set<nat>, trees: seq<Tree>, s: nat) {
    exists x :: x in heap && x < |trees| && s in Symbols(trees[x])
  }

  /** The trees in the heap share no symbol, and together they hold exactly the given symbols. */
  ghost predicate Forest(heap: set<nat>, trees: seq<Tree>, used: set<nat>) {
    && InRange(heap, |trees|)
    && (forall x :: x in heap ==> Distinct(trees[x]) && Symbols(trees[x]) <= used)
    && (forall x, y :: x in heap && y in heap && x != y ==> Symbols(trees[x]) !! Symbols(trees[y]))
    && (forall s :: s in used ==> Covered(heap, trees, s))
  }

  lemma MergeCovers(heap: set<nat>, trees: seq<Tree>, a: nat, b: nat, s: nat)
    requires InRange(heap, |trees|) && a in heap && b in heap && Covered(heap, trees, s)
    ensures Covered(heap - {a} - {b} + {|trees|}, trees + [Fork(trees[a], trees[b])], s)
  {
    var trees' := trees + [Fork(trees[a], trees[b])];
    var x :| x in heap && s in Symbols(trees[x]);
    if x == a || x == b {
      assert s in Symbols(trees'[|trees|]);
    } else {
      assert trees'[x] == trees[x];
    }
  }

  /** Replacing two trees by their fork keeps the forest. */
  lemma MergeForest(heap: set<nat>, trees: seq<Tree>, used: set<nat>, a: nat, b: nat)
    requires Forest(heap, trees, used) && a in heap && b in heap && a != b
    ensures Forest(heap - {a} - {b} + {|trees|}, trees + [Fork(trees[a], trees[b])], used)
  {
    hide Covered;
    var trees' := trees + [Fork(trees[a], trees[b])];
    assert Symbols(trees'[|trees|]) == Symbols(trees[a]) + Symbols(trees[b]);
    forall s | s in used
      ensures Covered(heap - {a} - {b} + {|trees|}, trees', s)
    {
      MergeCovers(heap, trees, a, b, s);
    }
  }

  /** The symbols that occur. */
  function Used(freq: seq<nat>): set<nat> {
    set s | 0 <= s < |freq| && freq[s] > 0
  }

  /** The leaves of the first `k` symbols that occur, in order. */
  ghost predicate Seeded(freq: seq<nat>, k: nat, nodes: seq<Node>, trees: seq<Tree>, weights: seq<nat>)
    requires k <= |freq|
  {
    && |nodes| == |trees| == |weights|
    && (forall i :: 0 <= i < |nodes| ==> SeededAt(freq, k, nodes[i], trees[i], weights[i]))
    && (forall i, j :: 0 <= i < j < |trees| ==> trees[i] != trees[j])
    && (forall s :: 0 <= s < k && freq[s] > 0 ==> Leaf(s) in trees)
  }

  predicate SeededAt(freq: seq<nat>, k: nat, node: Node, tree: Tree, weight: nat)
    requires k <= |freq|
  {
    node.LeafNode? && node.symbol < k && freq[node.symbol] > 0 && tree == Leaf(node.symbol)
        && weight == freq[node.symbol]
  }

  function Below(n: nat): (r: set<nat>)
    ensures forall i :: i in r <==> 0 <= i < n
    ensures |r| == n
  {
    if n == 0 then {} else Below(n - 1) + {n - 1}
  }

  lemma SeededForest(freq: seq<nat>, nodes: seq<Node>, trees: seq<Tree>, weights: seq<nat>)
    requires Seeded(freq, |freq|, nodes, trees, weights)
    ensures Matches(nodes, trees) && Forest(Below(|trees|), trees, Used(freq))
  {
    hide Below, Covered;
    forall s | s in Used(freq)
      ensures Covered(Below(|trees|), trees, s)
    {
      SeededCovers(trees, s);
    }
    forall x | 0 <= x < |trees|
      ensures trees[x].Leaf? && trees[x].sym in Used(freq) && MatchesAt(nodes, trees, x)
    {
      assert SeededAt(freq, |freq|, nodes[x], trees[x], weights[x]);
    }
    forall x, y | 0 <= x < |trees| && 0 <= y < |trees| && x != y
      ensures Symbols(trees[x]) !! Symbols(trees[y])
    {
      assert trees[x] != trees[y];
    }
  }

  lemma SeededCovers(trees: seq<Tree>, s: nat)
    requires Leaf(s) in trees
    ensures Covered(Below(|trees|), trees, s)
  {
    var x :| 0 <= x < |trees| && trees[x] == Leaf(s);
    assert x in Below(|trees|) && s in Symbols(trees[x]);
  }

  method SeedHeap(freq: seq<nat>) returns (heap: set<nat>, nodes: seq<Node>, weights: seq<nat>, ghost trees: seq<Tree>)
    ensures Seeded(freq, |freq|, nodes, trees, weights) && heap == Below(|trees|)
  {
    hide Seeded;
    heap, nodes, weights, trees := {}, [], [], [];
    SeedNothing(freq);
    for symbol := 0 to |freq|
      invariant Seeded(freq, symbol, nodes, trees, weights) && heap == Below(|trees|)
    {
      if freq[symbol] > 0 {
        SeedUsed(freq, symbol, nodes, trees, weights);
        heap := heap + {|nodes|};
        nodes := nodes + [LeafNode(symbol)];
        weights := weights + [freq[symbol]];
        trees := trees + [Leaf(symbol)];
      } else {
        SeedUnused(freq, symbol, nodes, trees, weights);
      }
    }
  }

  lemma SeedNothing(freq: seq<nat>)
    ensures Seeded(freq, 0, [], [], []) && Below(0) == {}
  {
  }

  lemma SeedUsed(freq: seq<nat>, k: nat, nodes: seq<Node>, trees: seq<Tree>, weights: seq<nat>)
    requires k < |freq| && freq[k] > 0 && Seeded(freq, k, nodes, trees, weights)
    ensures Seeded(freq, k + 1, nodes + [LeafNode(k)], trees + [Leaf(k)], weights + [freq[k]])
    ensures |nodes| == |trees| && Below(|trees| + 1) == Below(|trees|) + {|trees|}
  {
    hide SeededAt;
    var nodes', trees', weights' := nodes + [LeafNode(k)], trees + [Leaf(k)], weights + [freq[k]];
    forall i | 0 <= i < |nodes'|
      ensures SeededAt(freq, k + 1, nodes'[i], trees'[i], weights'[i])
    {
      if i < |nodes| {
        SeededLater(freq, k, nodes[i], trees[i], weights[i]);
      } else {
        SeededNow(freq, k);
      }
    }
    forall i, j | 0 <= i < j < |trees'|
      ensures trees'[i] != trees'[j]
    {
      if j == |trees| {
        SeededLater(freq, k, nodes[i], trees[i], weights[i]);
      }
    }
    assert trees'[|trees|] == Leaf(k);
    assert forall t :: t in trees ==> t in trees';
  }

  lemma SeedUnused(freq: seq<nat>, k: nat, nodes: seq<Node>, trees: seq<Tree>, weights: seq<nat>)
    requires k < |freq| && freq[k] == 0 && Seeded(freq, k, nodes, trees, weights)
    ensures Seeded(freq, k + 1, nodes, trees, weights)
  {
    hide SeededAt;
    forall i | 0 <= i < |nodes|
      ensures SeededAt(freq, k + 1, nodes[i], trees[i], weights[i])
    {
      SeededLater(freq, k, nodes[i], trees[i], weights[i]);
    }
  }

  lemma SeededLater(freq: seq<nat>, k: nat, node: Node, tree: Tree, weight: nat)
    requires k < |freq| && SeededAt(freq, k, node, tree, weight)
    ensures SeededAt(freq, k + 1, node, tree, weight) && tree != Leaf(k)
  {
  }

  lemma SeededNow(freq: seq<nat>, k: nat)
    requires k < |freq| && freq[k] > 0
    ensures SeededAt(freq, k + 1, LeafNode(k), Leaf(k), freq[k])
  {
  }

  // ---- Merging ----------------------------------------------------------------------------------

  /** One turn of the merging loop, on the specification side. */
  ghost predicate Consistent(heap: set<nat>, nodes: seq<Node>, trees: seq<Tree>, weights: seq<nat>, used: set<nat>) {
    Matches(nodes, trees) && |weights| == |trees| && Forest(heap, trees, used)
  }

  lemma MergeConsistent(heap: set<nat>, nodes: seq<Node>, trees: seq<Tree>, weights: seq<nat>, used: set<nat>,
                        a: nat, b: nat, w: nat)
    requires Consistent(heap, nodes, trees, weights, used) && a in heap && b in heap && a != b
    ensures Consistent(heap - {a} - {b} + {|nodes|}, nodes + [InnerNode(a, b)],
                       trees + [Fork(trees[a], trees[b])], weights + [w], used)
  {
    hide Forest, Distinct, Symbols;
    assert InRange(heap, |trees|) by {
      ForestRange(heap, trees, used);
    }
    MergeForest(heap, trees, used, a, b);
    var nodes', trees' := nodes + [InnerNode(a, b)], trees + [Fork(trees[a], trees[b])];
    forall i | 0 <= i < |nodes'|
      ensures MatchesAt(nodes', trees', i)
    {
      assert i < |nodes| ==> MatchesAt(nodes, trees, i);
    }
  }

  lemma ForestRange(heap: set<nat>, trees: seq<Tree>, used: set<nat>)
    requires Forest(heap, trees, used)
    ensures InRange(heap, |trees|)
  {
  }

  // ---- Reading off the depths -------------------------------------------------------------------

  datatype Entry = Entry(node: nat, depth: nat)

  function AtLeastOne(d: nat): nat {
    if d < 1 then 1 else d
  }

  /** A stack entry stands for a subtree whose depths are those in the whole tree. */
  ghost predicate EntryRight(e: Entry, trees: seq<Tree>, root: Tree, todo: set<nat>) {
    && e.node < |trees| && Distinct(trees[e.node]) && Symbols(trees[e.node]) <= todo
    && forall s :: s in Symbols(trees[e.node]) ==> Depth(root, s, 0) == Depth(trees[e.node], s, e.depth)
  }

  /** The entries are separate and hold exactly the symbols that have no length yet. */
  ghost predicate StackRight(stack: seq<Entry>, trees: seq<Tree>, root: Tree, todo: set<nat>) {
    && (forall i :: 0 <= i < |stack| ==> EntryRight(stack[i], trees, root, todo))
    && (forall i, j :: 0 <= i < j < |stack| ==> Symbols(trees[stack[i].node]) !! Symbols(trees[stack[j].node]))
    && (forall s :: s in todo ==> InStack(stack, trees, s))
  }

  predicate InStack(stack: seq<Entry>, trees: seq<Tree>, s: nat) {
    exists i :: 0 <= i < |stack| && stack[i].node < |trees| && s in Symbols(trees[stack[i].node])
  }

  function StackSize(stack: seq<Entry>, trees: seq<Tree>): nat {
    if stack == [] then 0
    else
      var e := stack[|stack| - 1];
      StackSize(stack[..|stack| - 1], trees) + if e.node < |trees| then Size(trees[e.node]) else 0
  }

  lemma PopLeaf(stack: seq<Entry>, trees: seq<Tree>, root: Tree, todo: set<nat>)
    requires stack != [] && StackRight(stack, trees, root, todo) && trees[stack[|stack| - 1].node].Leaf?
    ensures var sym := trees[stack[|stack| - 1].node].sym;
            sym in todo && StackRight(stack[..|stack| - 1], trees, root, todo - {sym})
  {
    var last := |stack| - 1;
    var sym := trees[stack[last].node].sym;
    assert EntryRight(stack[last], trees, root, todo);
    forall i | 0 <= i < last
      ensures EntryRight(stack[..last][i], trees, root, todo - {sym})
    {
      assert EntryRight(stack[i], trees, root, todo);
    }
    forall s | s in todo - {sym}
      ensures InStack(stack[..last], trees, s)
    {
      var i :| 0 <= i < |stack| && s in Symbols(trees[stack[i].node]);
      assert stack[..last][i] == stack[i];
    }
  }

  ghost predicate Separate(stack: seq<Entry>, trees: seq<Tree>) {
    && (forall i :: 0 <= i < |stack| ==> stack[i].node < |trees|)
    && (forall i, j :: 0 <= i < j < |stack| ==> Symbols(trees[stack[i].node]) !! Symbols(trees[stack[j].node]))
  }

  lemma PushSeparate(rest: seq<Entry>, e: Entry, trees: seq<Tree>, el: Entry, er: Entry)
    requires Separate(rest + [e], trees) && e.node < |trees| && el.node < |trees| && er.node < |trees|
    requires trees[e.node] == Fork(trees[el.node], trees[er.node]) && Distinct(trees[e.node])
    ensures Separate(rest + [el, er], trees)
  {
    var old', new' := rest + [e], rest + [el, er];
    var n := |rest|;
    assert old'[n] == e && new'[n] == el && new'[n + 1] == er;
    assert forall i :: 0 <= i < n ==> old'[i] == rest[i] == new'[i];
    assert Symbols(trees[e.node]) == Symbols(trees[el.node]) + Symbols(trees[er.node]);
    hide Symbols;
    forall i | 0 <= i < n
      ensures Symbols(trees[rest[i].node]) !! Symbols(trees[e.node])
    {
      assert Symbols(trees[old'[i].node]) !! Symbols(trees[old'[n].node]);
    }
  }

  lemma PushCovers(rest: seq<Entry>, e: Entry, trees: seq<Tree>, el: Entry, er: Entry, s: nat)
    requires InStack(rest + [e], trees, s) && el.node < |trees| && er.node < |trees| && e.node < |trees|
    requires trees[e.node] == Fork(trees[el.node], trees[er.node])
    ensures InStack(rest + [el, er], trees, s)
  {
    var old', new' := rest + [e], rest + [el, er];
    var i :| 0 <= i < |old'| && old'[i].node < |trees| && s in Symbols(trees[old'[i].node]);
    if i == |rest| {
      assert s in Symbols(trees[new'[i].node]) || s in Symbols(trees[new'[i + 1].node]);
    } else {
      assert new'[i] == old'[i];
    }
  }

  lemma PushFork(stack: seq<Entry>, trees: seq<Tree>, root: Tree, todo: set<nat>, l: nat, r: nat)
    requires stack != [] && StackRight(stack, trees, root, todo) && l < |trees| && r < |trees|
    requires trees[stack[|stack| - 1].node] == Fork(trees[l], trees[r])
    ensures var d := SatInc8(stack[|stack| - 1].depth);
            StackRight(stack[..|stack| - 1] + [Entry(l, d), Entry(r, d)], trees, root, todo)
  {
    hide InStack, SatInc8;
    var last := |stack| - 1;
    var e, d := stack[last], SatInc8(stack[last].depth);
    var el, er := Entry(l, d), Entry(r, d);
    assert stack == stack[..last] + [e];
    assert EntryRight(stack[last], trees, root, todo);
    assert EntryRight(el, trees, root, todo) && EntryRight(er, trees, root, todo) by {
      ForkDepths(trees[e.node], e.depth);
    }
    hide EntryRight, Distinct, Depth, Symbols;
    StackRange(stack, trees, root, todo);
    PushSeparate(stack[..last], e, trees, el, er);
    forall s | s in todo
      ensures InStack(stack[..last] + [el, er], trees, s)
    {
      PushCovers(stack[..last], e, trees, el, er, s);
    }
  }

  lemma StackRange(stack: seq<Entry>, trees: seq<Tree>, root: Tree, todo: set<nat>)
    requires StackRight(stack, trees, root, todo)
    ensures Separate(stack, trees) && forall i :: 0 <= i < |stack| ==> Distinct(trees[stack[i].node])
  {
    forall i | 0 <= i < |stack|
      ensures stack[i].node < |trees| && Distinct(trees[stack[i].node])
    {
      assert EntryRight(stack[i], trees, root, todo);
    }
  }

  lemma ForkDepths(t: Tree, d: nat)
    requires t.Fork? && Distinct(t)
    ensures forall s :: s in Symbols(t.l) ==> Depth(t, s, d) == Depth(t.l, s, SatInc8(d))
    ensures forall s :: s in Symbols(t.r) ==> Depth(t, s, d) == Depth(t.r, s, SatInc8(d))
  {
  }

  /** The lengths are right for every symbol outside `todo`, and still 0 elsewhere. */
  ghost predicate Assigned(lengths: seq<nat>, root: Tree, todo: set<nat>) {
    forall s :: 0 <= s < |lengths| ==>
      lengths[s] == if s in Symbols(root) && s !in todo then AtLeastOne(Depth(root, s, 0)) else 0
  }

  predicate MaxOf(m: nat, lengths: seq<nat>) {
    && (forall s :: 0 <= s < |lengths| ==> lengths[s] <= m)
    && (m > 0 ==> exists s :: 0 <= s < |lengths| && lengths[s] == m)
  }

  lemma MaxUpdate(m: nat, lengths: seq<nat>, s: nat, d: nat)
    requires MaxOf(m, lengths) && s < |lengths| && lengths[s] == 0
    ensures MaxOf(if m < d then d else m, lengths[s := d])
  {
    var updated := lengths[s := d];
    if m >= d && m > 0 {
      var k :| 0 <= k < |lengths| && lengths[k] == m;
      assert updated[k] == m;
    } else if d > 0 {
      assert updated[s] == d;
    }
  }

  method ReadDepths(nodes: seq<Node>, rootIdx: nat, count: nat, ghost trees: seq<Tree>)
    returns (lengths: seq<nat>, maxDepth: nat)
    requires Matches(nodes, trees) && rootIdx < |trees| && Distinct(trees[rootIdx])
    requires forall s :: s in Symbols(trees[rootIdx]) ==> s < count
    ensures |lengths| == count && Assigned(lengths, trees[rootIdx], {}) && MaxOf(maxDepth, lengths)
  {
    hide Depth, Distinct, Symbols, EntryRight, InStack;
    ghost var root := trees[rootIdx];
    ghost var todo := Symbols(root);
    lengths := Repeat(0, count);
    maxDepth := 0;
    var stack := [Entry(rootIdx, 0)];
    StartStack(trees, rootIdx);
    while stack != []
      invariant |lengths| == count && Assigned(lengths, root, todo) && MaxOf(maxDepth, lengths)
      invariant todo <= Symbols(root) && StackRight(stack, trees, root, todo)
      decreases StackSize(stack, trees)
    {
      var last := |stack| - 1;
      var idx, depth := stack[last].node, stack[last].depth;
      EntryInRange(stack[last], trees, root, todo);
      assert MatchesAt(nodes, trees, idx);
      match nodes[idx]
      case LeafNode(sym) =>
        PopLeaf(stack, trees, root, todo);
        LeafDepth(stack[last], trees, root, todo, sym);
        var actualDepth := AtLeastOne(depth);
        MaxUpdate(maxDepth, lengths, sym, actualDepth);
        lengths := lengths[sym := actualDepth];
        maxDepth := if maxDepth < actualDepth then actualDepth else maxDepth;
        todo := todo - {sym};
        SizePositive(trees[idx]);
        stack := stack[..last];
      case InnerNode(left, right) =>
        PushFork(stack, trees, root, todo, left, right);
        ghost var rest := stack[..last];
        var d := SatInc8(depth);
        StackGrows(rest, trees, left, right, d);
        stack := stack[..last] + [Entry(left, d), Entry(right, d)];
    }
    StackEmpty(trees, root, todo);
  }

  lemma StartStack(trees: seq<Tree>, rootIdx: nat)
    requires rootIdx < |trees| && Distinct(trees[rootIdx])
    ensures StackRight([Entry(rootIdx, 0)], trees, trees[rootIdx], Symbols(trees[rootIdx]))
  {
    var stack := [Entry(rootIdx, 0)];
    assert EntryRight(stack[0], trees, trees[rootIdx], Symbols(trees[rootIdx]));
    forall s | s in Symbols(trees[rootIdx])
      ensures InStack(stack, trees, s)
    {
      assert s in Symbols(trees[stack[0].node]);
    }
  }

  lemma EntryInRange(e: Entry, trees: seq<Tree>, root: Tree, todo: set<nat>)
    requires EntryRight(e, trees, root, todo)
    ensures e.node < |trees|
  {
  }

  lemma LeafDepth(e: Entry, trees: seq<Tree>, root: Tree, todo: set<nat>, sym: nat)
    requires EntryRight(e, trees, root, todo) && trees[e.node] == Leaf(sym)
    ensures sym in todo && Depth(root, sym, 0) == e.depth
  {
    assert sym in Symbols(trees[e.node]);
  }

  lemma StackEmpty(trees: seq<Tree>, root: Tree, todo: set<nat>)
    requires StackRight([], trees, root, todo)
    ensures todo == {}
  {
  }

  lemma SizePositive(t: Tree)
    ensures Size(t) >= 1
  {
  }

  lemma StackGrows(rest: seq<Entry>, trees: seq<Tree>, l: nat, r: nat, d: nat)
    requires l < |trees| && r < |trees|
    ensures StackSize(rest + [Entry(l, d), Entry(r, d)], trees)
          == StackSize(rest, trees) + Size(trees[l]) + Size(trees[r])
  {
    var one := rest + [Entry(l, d)];
    assert rest + [Entry(l, d), Entry(r, d)] == one + [Entry(r, d)];
    assert (one + [Entry(r, d)])[..|one|] == one && one[..|rest|] == rest;
  }
}
