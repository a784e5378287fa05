/** The GPU's prefix sums: blocks of 256 numbers are scanned in eight doubling steps, the block sums are scanned in
    turn, and the results are added to the blocks. */
module GpuScan {
  import opened Totals

  const BLOCK: nat := 256

  lemma {:induction false} TotalAppend(a: seq<nat>, b: seq<nat>)
    ensures Total(a + b) == Total(a) + Total(b)
    decreases |b|
  {
    if b == [] {
      assert a + b == a;
    } else {
      TotalAppend(a, b[..|b| - 1]);
      assert (a + b)[..|a + b| - 1] == a + b[..|b| - 1];
    }
  }

  lemma TotalOfSlices(s: seq<nat>, a: nat, b: nat, c: nat)
    requires a <= b <= c <= |s|
    ensures Total(s[a..c]) == Total(s[a..b]) + Total(s[b..c])
  {
    TotalAppend(s[a..b], s[b..c]);
    assert s[a..b] + s[b..c] == s[a..c];
  }

  /** Where the `width` numbers that end at position `i` begin. */
  function From(i: nat, width: nat): (lo: nat)
    ensures lo <= i + 1
  {
    if i + 1 >= width then i + 1 - width else 0
  }

  /** Every position has the sum of the `width` numbers that end there. */
  predicate Summed(scratch: seq<nat>, values: seq<nat>, width: nat) {
    && |scratch| == |values|
    && forall i :: 0 <= i < |values| ==> scratch[i] == Total(values[From(i, width)..i + 1])
  }

  /** One doubling step of all threads, between two barriers. */
  function Doubled(scratch: seq<nat>, offset: nat): (r: seq<nat>)
    ensures |r| == |scratch|
  {
    seq(|scratch|, i requires 0 <= i < |scratch| => scratch[i] + if 1 <= offset <= i then scratch[i - offset] else 0)
  }

  lemma DoublingStep(scratch: seq<nat>, values: seq<nat>, offset: nat)
    requires offset >= 1 && Summed(scratch, values, offset)
    ensures Summed(Doubled(scratch, offset), values, 2 * offset)
  {
    hide Total;
    forall i | 0 <= i < |values|
      ensures Doubled(scratch, offset)[i] == Total(values[From(i, 2 * offset)..i + 1])
    {
      if i >= offset {
        assert From(i - offset, offset) == From(i, 2 * offset) && From(i, offset) == i - offset + 1;
        TotalOfSlices(values, From(i, 2 * offset), From(i, offset), i + 1);
      }
    }
  }

  lemma SingleSummed(values: seq<nat>)
    ensures Summed(values, values, 1)
  {
    forall i | 0 <= i < |values|
      ensures Total(values[From(i, 1)..i + 1]) == values[i]
    {
      assert values[i..i + 1] == [values[i]];
      assert [values[i]][..0] == [];
    }
  }

  /** The sums in front of the positions. */
  ghost predicate Prefixes(prefix: seq<nat>, values: seq<nat>) {
    |prefix| == |values| && forall i :: 0 <= i < |values| ==> prefix[i] == Total(values[..i])
  }

  lemma OneMore(values: seq<nat>, i: nat)
    requires i < |values|
    ensures Total(values[..i + 1]) == Total(values[..i]) + values[i]
  {
    assert values[..i + 1][..i] == values[..i];
  }

  /** One block of at most 256 numbers. */
  method ScanBlock(values: seq<nat>) returns (prefix: seq<nat>, sum: nat)
    requires |values| <= BLOCK
    ensures Prefixes(prefix, values) && sum == Total(values)
  {
    hide Total, Doubled, Summed;
    ghost var padded := Padded(values);
    var scratch := Padded(values);
    SingleSummed(padded);
    var offset := 1;
    while offset < BLOCK
      invariant offset in {1, 2, 4, 8, 16, 32, 64, 128, 256} && Summed(scratch, padded, offset)
      decreases BLOCK - offset
    {
      DoublingStep(scratch, padded, offset);
      scratch := Doubled(scratch, offset);
      offset := 2 * offset;
    }
    AllSummed(scratch, padded);
    PaddedTotal(values);
    prefix := [];
    for i := 0 to |values|
      invariant |prefix| == i && forall k :: 0 <= k < i ==> prefix[k] == Total(values[..k])
    {
      assert padded[..i + 1] == values[..i + 1];
      OneMore(values, i);
      prefix := prefix + [scratch[i] - values[i]];
    }
    assert padded[..BLOCK] == padded;
    sum := scratch[BLOCK - 1];
  }

  /** Threads behind the end take zero. */
  function Padded(values: seq<nat>): (r: seq<nat>)
    requires |values| <= BLOCK
    ensures |r| == BLOCK && forall i :: 0 <= i < BLOCK ==> r[i] == if i < |values| then values[i] else 0
  {
    seq(BLOCK, i requires 0 <= i < BLOCK => if i < |values| then values[i] else 0)
  }

  lemma AllSummed(scratch: seq<nat>, values: seq<nat>)
    requires |values| == BLOCK && Summed(scratch, values, BLOCK)
    ensures |scratch| == BLOCK && forall i :: 0 <= i < BLOCK ==> scratch[i] == Total(values[..i + 1])
  {
    forall i | 0 <= i < BLOCK
      ensures scratch[i] == Total(values[..i + 1])
    {
      assert From(i, BLOCK) == 0;
    }
  }

  lemma {:induction false} ZerosTotal(s: seq<nat>)
    requires forall i :: 0 <= i < |s| ==> s[i] == 0
    ensures Total(s) == 0
  {
    if s != [] {
      ZerosTotal(s[..|s| - 1]);
    }
  }

  lemma PaddedTotal(values: seq<nat>)
    requires |values| <= BLOCK
    ensures Total(Padded(values)) == Total(values)
  {
    hide Total;
    var p := Padded(values);
    ZerosTotal(p[|values|..]);
    TotalAppend(values, p[|values|..]);
    assert values + p[|values|..] == p;
  }

  /** The `b`-th block. */
  function Block(values: seq<nat>, b: nat): (r: seq<nat>)
    requires b * BLOCK <= |values|
    ensures |r| <= BLOCK
  {
    values[b * BLOCK..if (b + 1) * BLOCK <= |values| then (b + 1) * BLOCK else |values|]
  }

  /** The sums of the first blocks. */
  ghost predicate BlockSums(sums: seq<nat>, values: seq<nat>, k: nat) {
    && |sums| == k && (k >= 1 ==> (k - 1) * BLOCK <= |values|)
    && forall b :: 0 <= b < k ==> b * BLOCK <= |values| && sums[b] == Total(Block(values, b))
  }

  /** A position's prefix sum is made of whole blocks and of a part of its own. */
  lemma {:induction false} WholeBlocks(sums: seq<nat>, values: seq<nat>, k: nat, b: nat)
    requires BlockSums(sums, values, k) && b <= k && b * BLOCK <= |values|
    ensures Total(sums[..b]) == Total(values[..b * BLOCK])
    decreases b
  {
    hide Total;
    if b == 0 {
      Nothing();
    } else {
      WholeBlocks(sums, values, k, b - 1);
      OneMore(sums, b - 1);
      TotalOfSlices(values, 0, (b - 1) * BLOCK, b * BLOCK);
      assert values[0..b * BLOCK] == values[..b * BLOCK] && values[0..(b - 1) * BLOCK] == values[..(b - 1) * BLOCK];
    }
  }

  lemma Nothing()
    ensures Total([]) == 0
  {
  }

  lemma PositionSum(sums: seq<nat>, values: seq<nat>, k: nat, i: nat)
    requires BlockSums(sums, values, k) && i < |values| && i / BLOCK < k
    ensures i % BLOCK < |Block(values, i / BLOCK)|
    ensures Total(values[..i]) == Total(sums[..i / BLOCK]) + Total(Block(values, i / BLOCK)[..i % BLOCK])
  {
    hide Total;
    var b := i / BLOCK;
    WholeBlocks(sums, values, k, b);
    TotalOfSlices(values, 0, b * BLOCK, i);
    assert values[0..i] == values[..i] && values[0..b * BLOCK] == values[..b * BLOCK];
    assert Block(values, b)[..i % BLOCK] == values[b * BLOCK..i];
  }

  lemma AllBlocks(sums: seq<nat>, values: seq<nat>, k: nat)
    requires BlockSums(sums, values, k) && |values| > 0 && k == (|values| + BLOCK - 1) / BLOCK
    ensures Total(sums) == Total(values)
  {
    hide Total;
    var b: nat := k - 1;
    WholeBlocks(sums, values, k, b);
    OneMore(sums, b);
    TotalOfSlices(values, 0, b * BLOCK, |values|);
    assert sums[..k] == sums && values[0..|values|] == values && values[0..b * BLOCK] == values[..b * BLOCK];
    assert Block(values, b) == values[b * BLOCK..|values|];
  }

  /** Prefix sums of any number of values, level by level. */
  method PrefixScan(values: seq<nat>) returns (prefix: seq<nat>, total: nat)
    ensures Prefixes(prefix, values) && total == Total(values)
    decreases |values|
  {
    hide Total, Block;
    if values == [] {
      Nothing();
      return [], 0;
    }
    var blocks := (|values| + BLOCK - 1) / BLOCK;
    var sums: seq<nat> := [];
    prefix := [];
    for b := 0 to blocks
      invariant BlockSums(sums, values, b)
      invariant |prefix| == if b < blocks then b * BLOCK else |values|
      invariant forall i :: 0 <= i < |prefix| ==> InBlock(prefix[i], values, i)
    {
      BlockEnds(values, b, blocks);
      var part, sum := ScanBlock(Block(values, b));
      PartInBlock(part, values, b);
      prefix := prefix + part;
      sums := sums + [sum];
    }
    AllBlocks(sums, values, blocks);
    if blocks == 1 {
      OnlyBlock(prefix, values, sums);
      return prefix, sums[0];
    }
    var offsets;
    offsets, total := PrefixScan(sums);
    var inBlocks := prefix;
    prefix := seq(|values|, i requires 0 <= i < |values| => AddedAt(inBlocks, offsets, i));
    forall i | 0 <= i < |values|
      ensures prefix[i] == Total(values[..i])
    {
      assert InBlock(inBlocks[i], values, i);
      PositionSum(sums, values, blocks, i);
    }
  }

  /** Adding the offset of the block. */
  function AddedAt(prefix: seq<nat>, offsets: seq<nat>, i: nat): nat {
    if i < |prefix| && i / BLOCK < |offsets| then prefix[i] + offsets[i / BLOCK] else 0
  }

  /** The sum in front of a position within its block. */
  ghost predicate InBlock(sum: nat, values: seq<nat>, i: nat) {
    i / BLOCK * BLOCK <= |values| && i % BLOCK <= |Block(values, i / BLOCK)|
    && sum == Total(Block(values, i / BLOCK)[..i % BLOCK])
  }

  lemma BlockEnds(values: seq<nat>, b: nat, blocks: nat)
    requires b < blocks == (|values| + BLOCK - 1) / BLOCK
    ensures b * BLOCK < |values|
    ensures b * BLOCK + |Block(values, b)| == if b + 1 < blocks then (b + 1) * BLOCK else |values|
    ensures b + 1 < blocks ==> (b + 1) * BLOCK < |values|
  {
  }

  lemma PartInBlock(part: seq<nat>, values: seq<nat>, b: nat)
    requires b * BLOCK < |values| && Prefixes(part, Block(values, b))
    ensures forall k :: 0 <= k < |part| ==> InBlock(part[k], values, b * BLOCK + k)
  {
    hide Total, Block;
    forall k | 0 <= k < |part|
      ensures InBlock(part[k], values, b * BLOCK + k)
    {
      assert (b * BLOCK + k) / BLOCK == b && (b * BLOCK + k) % BLOCK == k;
    }
  }

  lemma OnlyBlock(prefix: seq<nat>, values: seq<nat>, sums: seq<nat>)
    requires BlockSums(sums, values, 1) && 0 < |values| <= BLOCK && |prefix| == |values|
    requires forall i :: 0 <= i < |prefix| ==> InBlock(prefix[i], values, i)
    ensures Prefixes(prefix, values) && sums[0] == Total(values)
  {
    hide Total;
    assert Block(values, 0) == values;
    forall i | 0 <= i < |values|
      ensures prefix[i] == Total(values[..i])
    {
      assert InBlock(prefix[i], values, i);
    }
  }
}
