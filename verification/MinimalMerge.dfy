/** Why merging the two lightest items is optimal: any code lengths that satisfy Kraft's inequality cost at
    least the weight of the two lightest items more than some code lengths for the merged items. */
module MinimalMerge {
  import opened Sums
  import opened Format

  /** The share of the code space that each code of the given length takes, in units of codes of `n` bits. */
  function Share(lens: seq<nat>, n: nat): nat -> int {
    (x: nat) => if x < |lens| && lens[x] <= n then Pow2(n - lens[x]) else 0
  }

  /** What each item adds to the total length. */
  function Price(weights: seq<nat>, lens: seq<nat>): nat -> int {
    (x: nat) => if x < |lens| && x < |weights| then weights[x] * lens[x] else 0
  }

  ghost function Cost(items: set<nat>, weights: seq<nat>, lens: seq<nat>): int {
    Sum(items, Price(weights, lens))
  }

  /** Lengths of at most `n` bits that satisfy Kraft's inequality. */
  ghost predicate Valid(items: set<nat>, lens: seq<nat>, n: nat) {
    && (forall x :: x in items ==> x < |lens| && lens[x] <= n)
    && Sum(items, Share(lens, n)) <= Pow2(n)
  }

  /** No valid lengths cost less than `c`. */
  ghost predicate LowerBound(items: set<nat>, weights: seq<nat>, n: nat, c: int) {
    forall lens: seq<nat> :: |lens| == |weights| && Valid(items, lens, n) ==> Cost(items, weights, lens) >= c
  }

  predicate Lightest(x: nat, items: set<nat>, weights: seq<nat>) {
    x in items && forall y :: y in items ==> x < |weights| && y < |weights| && weights[x] <= weights[y]
  }

  // ---- Swapping two lengths ---------------------------------------------------------------------

  function Swap(lens: seq<nat>, x: nat, y: nat): (r: seq<nat>)
    requires x < |lens| && y < |lens|
    ensures |r| == |lens|
  {
    lens[x := lens[y]][y := lens[x]]
  }

  lemma SwapValid(items: set<nat>, lens: seq<nat>, n: nat, x: nat, y: nat)
    requires Valid(items, lens, n) && x in items && y in items
    ensures Valid(items, Swap(lens, x, y), n)
  {
    hide Sum, Pow2;
    var f, g := Share(lens, n), Share(Swap(lens, x, y), n);
    if x == y {
      SumSame(items, f, g);
    } else {
      SumTwo(items, f, x, y);
      SumTwo(items, g, x, y);
      SumSame(items - {x} - {y}, f, g);
    }
  }

  lemma Rearrange(wx: nat, wy: nat, lx: nat, ly: nat)
    requires wx <= wy && lx <= ly
    ensures wx * ly + wy * lx <= wx * lx + wy * ly
  {
    assert (wy - wx) * (ly - lx) >= 0;
    assert (wy - wx) * (ly - lx) == wy * ly - wy * lx - wx * ly + wx * lx;
  }

  /** Giving the lighter item the longer code does not cost more. */
  lemma SwapCheaper(items: set<nat>, weights: seq<nat>, lens: seq<nat>, x: nat, y: nat)
    requires x in items && y in items && x < |lens| == |weights| && y < |lens|
    requires weights[x] <= weights[y] && lens[x] <= lens[y]
    ensures Cost(items, weights, Swap(lens, x, y)) <= Cost(items, weights, lens)
  {
    var f, g := Price(weights, lens), Price(weights, Swap(lens, x, y));
    if x == y {
      SumSame(items, f, g);
    } else {
      SumTwo(items, f, x, y);
      SumTwo(items, g, x, y);
      SumSame(items - {x} - {y}, f, g);
      Rearrange(weights[x], weights[y], lens[x], lens[y]);
    }
  }

  // ---- A single longest code can be shortened ---------------------------------------------------

  lemma {:induction false} Pow2Multiple(a: nat, b: nat) returns (k: int)
    requires b <= a
    ensures Pow2(a) == k * Pow2(b)
    decreases a - b
  {
    if a == b {
      k := 1;
    } else {
      var j := Pow2Multiple(a - 1, b);
      k := 2 * j;
    }
  }

  lemma RoomForOne(p: int, k: int, j: int)
    requires p > 0 && p + k * (2 * p) <= j * (2 * p)
    ensures 2 * p + k * (2 * p) <= j * (2 * p)
  {
    DifferenceTimes(j, k, 2 * p);
    PositiveFactor(j - k, 2 * p);
  }

  lemma DifferenceTimes(j: int, k: int, q: int)
    ensures (j - k) * q == j * q - k * q
  {
  }

  /** A positive multiple of a positive number is at least that number. */
  lemma PositiveFactor(d: int, q: int)
    requires q > 0 && d * q > 0
    ensures d * q >= q
  {
  }

  lemma ShortenValid(items: set<nat>, lens: seq<nat>, n: nat, z: nat)
    requires Valid(items, lens, n) && z in items && lens[z] >= 1
    requires forall x :: x in items && x != z ==> lens[x] < lens[z]
    ensures Valid(items, lens[z := lens[z] - 1], n)
  {
    var shorter := lens[z := lens[z] - 1];
    var f, g := Share(lens, n), Share(shorter, n);
    var p := Pow2(n - lens[z]);
    SumPick(items, f, z);
    SumPick(items, g, z);
    SumSame(items - {z}, f, g);
    assert Pow2(n - lens[z] + 1) == 2 * p;
    forall x | x in items - {z}
      ensures exists j: int :: f(x) == j * (2 * p)
    {
      var j := Pow2Multiple(n - lens[x], n - lens[z] + 1);
      assert f(x) == j * (2 * p);
    }
    var k := SumMultiple(items - {z}, f, 2 * p);
    var j := Pow2Multiple(n, n - lens[z] + 1);
    RoomForOne(p, k, j);
  }

  lemma ShortenCheaper(items: set<nat>, weights: seq<nat>, lens: seq<nat>, z: nat)
    requires z in items && z < |lens| == |weights| && lens[z] >= 1
    ensures Cost(items, weights, lens[z := lens[z] - 1]) <= Cost(items, weights, lens)
  {
    var f, g := Price(weights, lens), Price(weights, lens[z := lens[z] - 1]);
    SumPick(items, f, z);
    SumPick(items, g, z);
    SumSame(items - {z}, f, g);
    assert weights[z] * (lens[z] - 1) == weights[z] * lens[z] - weights[z];
  }

  // ---- Merging two items of the greatest length -------------------------------------------------

  lemma MergedCost(items: set<nat>, weights: seq<nat>, lens: seq<nat>, n: nat, a: nat, b: nat)
    requires Valid(items, lens, n) && |lens| == |weights| && a in items && b in items && a != b
    requires lens[a] == lens[b] >= 1
    ensures var m, weights', lens' := |weights|, weights + [weights[a] + weights[b]], lens + [lens[a] - 1];
            var items' := items - {a} - {b} + {m};
            && Valid(items', lens', n)
            && Cost(items, weights, lens) == Cost(items', weights', lens') + weights[a] + weights[b]
  {
    MergedShares(items, lens, n, a, b);
    MergedPrices(items, weights, lens, a, b);
  }

  lemma MergedShares(items: set<nat>, lens: seq<nat>, n: nat, a: nat, b: nat)
    requires Valid(items, lens, n) && a in items && b in items && a != b
    requires lens[a] == lens[b] >= 1
    ensures Valid(items - {a} - {b} + {|lens|}, lens + [lens[a] - 1], n)
  {
    hide Sum;
    var m: nat, lens', rest: set<nat> := |lens|, lens + [lens[a] - 1], items - {a} - {b};
    var f, g := Share(lens, n), Share(lens', n);
    SumTwo(items, f, a, b);
    SumAdd<nat>(rest, g, m);
    SumSame(rest, f, g);
    assert f(a) + f(b) == g(m);
  }

  lemma MergedPrices(items: set<nat>, weights: seq<nat>, lens: seq<nat>, a: nat, b: nat)
    requires |lens| == |weights| && a in items && b in items && a != b && forall x :: x in items ==> x < |lens|
    requires lens[a] == lens[b] >= 1
    ensures var items', weights' := items - {a} - {b} + {|weights|}, weights + [weights[a] + weights[b]];
            Cost(items, weights, lens) == Cost(items', weights', lens + [lens[a] - 1]) + weights[a] + weights[b]
  {
    hide Sum;
    var m: nat, weights', lens' := |weights|, weights + [weights[a] + weights[b]], lens + [lens[a] - 1];
    var rest: set<nat> := items - {a} - {b};
    var f, g := Price(weights, lens), Price(weights', lens');
    SumTwo(items, f, a, b);
    SumAdd<nat>(rest, g, m);
    SumSame(rest, f, g);
    MergedPrice(weights[a], weights[b], lens[a]);
  }

  lemma MergedPrice(wa: nat, wb: nat, l: nat)
    requires l >= 1
    ensures wa * l + wb * l == (wa + wb) * (l - 1) + wa + wb
  {
  }

  lemma {:induction false} Longest(items: set<nat>, lens: seq<nat>) returns (p: nat)
    requires items != {} && forall x :: x in items ==> x < |lens|
    ensures p in items && forall x :: x in items ==> lens[x] <= lens[p]
    decreases |items|
  {
    var y :| y in items;
    if items == {y} {
      p := y;
    } else {
      assert items - {y} != {} by {
        assert items == (items - {y}) + {y};
      }
      p := Longest(items - {y}, lens);
      if lens[p] < lens[y] {
        p := y;
      }
    }
  }

  lemma SomeLength(items: set<nat>, lens: seq<nat>, n: nat, a: nat, b: nat, p: nat)
    requires Valid(items, lens, n) && a in items && b in items && a != b
    requires p in items && forall x :: x in items ==> lens[x] <= lens[p]
    ensures lens[p] >= 1
  {
    var f := Share(lens, n);
    SumTwo(items, f, a, b);
    SumNonNegative(items - {a} - {b}, f);
  }

  /** Two longest codes moved to the two lightest items, then merged. */
  lemma TwoLongest(items: set<nat>, weights: seq<nat>, lens: seq<nat>, n: nat, a: nat, b: nat, c: int, p: nat, q: nat)
    requires Valid(items, lens, n) && |lens| == |weights|
    requires Lightest(a, items, weights) && Lightest(b, items - {a}, weights)
    requires p in items && q in items && p != q && lens[p] == lens[q] >= 1
    requires forall x :: x in items ==> lens[x] <= lens[p]
    requires LowerBound(items - {a} - {b} + {|weights|}, weights + [weights[a] + weights[b]], n, c)
    ensures Cost(items, weights, lens) >= c + weights[a] + weights[b]
  {
    hide Sum, Cost, LowerBound;
    var one := Swap(lens, a, p);
    SwapValid(items, lens, n, a, p);
    SwapCheaper(items, weights, lens, a, p);
    var q1 := if q == a then p else q;
    assert one[a] == one[q1] == lens[p] && q1 in items - {a};
    var two := Swap(one, b, q1);
    SwapValid(items, one, n, b, q1);
    SwapCheaper(items, weights, one, b, q1);
    assert two[a] == two[b] == lens[p];
    MergedCost(items, weights, two, n, a, b);
    UseBound(items - {a} - {b} + {|weights|}, weights + [weights[a] + weights[b]], n, c, two + [two[a] - 1]);
  }

  lemma UseBound(items: set<nat>, weights: seq<nat>, n: nat, c: int, lens: seq<nat>)
    requires LowerBound(items, weights, n, c) && |lens| == |weights| && Valid(items, lens, n)
    ensures Cost(items, weights, lens) >= c
  {
  }

  lemma {:induction false} MergeBoundAt(items: set<nat>, weights: seq<nat>, lens: seq<nat>, n: nat, a: nat, b: nat,
      c: int)
    requires Valid(items, lens, n) && |lens| == |weights|
    requires Lightest(a, items, weights) && Lightest(b, items - {a}, weights)
    requires LowerBound(items - {a} - {b} + {|weights|}, weights + [weights[a] + weights[b]], n, c)
    ensures Cost(items, weights, lens) >= c + weights[a] + weights[b]
    decreases Total(lens)
  {
    hide Cost, LowerBound;
    var p := Longest(items, lens);
    SomeLength(items, lens, n, a, b, p);
    if q :| q in items && q != p && lens[q] == lens[p] {
      TwoLongest(items, weights, lens, n, a, b, c, p, q);
    } else {
      ShortenValid(items, lens, n, p);
      ShortenCheaper(items, weights, lens, p);
      TotalDrops(lens, p);
      MergeBoundAt(items, weights, lens[p := lens[p] - 1], n, a, b, c);
    }
  }

  function Total(lens: seq<nat>): nat {
    if lens == [] then 0 else lens[0] + Total(lens[1..])
  }

  lemma {:induction false} TotalDrops(lens: seq<nat>, p: nat)
    requires p < |lens| && lens[p] >= 1
    ensures Total(lens[p := lens[p] - 1]) < Total(lens)
  {
    if p > 0 {
      assert lens[p := lens[p] - 1][1..] == lens[1..][p - 1 := lens[p] - 1];
      TotalDrops(lens[1..], p - 1);
    }
  }

  /** A bound for the merged items is a bound for the items, raised by the merged weight. */
  lemma MergeBound(items: set<nat>, weights: seq<nat>, n: nat, a: nat, b: nat, c: int)
    requires Lightest(a, items, weights) && Lightest(b, items - {a}, weights)
    requires LowerBound(items - {a} - {b} + {|weights|}, weights + [weights[a] + weights[b]], n, c)
    ensures LowerBound(items, weights, n, c + weights[a] + weights[b])
  {
    forall lens: seq<nat> | |lens| == |weights| && Valid(items, lens, n)
      ensures Cost(items, weights, lens) >= c + weights[a] + weights[b]
    {
      MergeBoundAt(items, weights, lens, n, a, b, c);
    }
  }

  lemma NothingToBound(items: set<nat>, weights: seq<nat>, n: nat)
    ensures LowerBound(items, weights, n, 0)
  {
    forall lens: seq<nat> | |lens| == |weights| && Valid(items, lens, n)
      ensures Cost(items, weights, lens) >= 0
    {
      SumNonNegative(items, Price(weights, lens));
    }
  }
}
