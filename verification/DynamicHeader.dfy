/** `build_dynamic_huffman_plan`: the header of a dynamic block, and why a reader recovers the planned codes from it. */
module DynamicHeader {
  import opened Options
  import opened Bits
  import opened Format
  import opened Sums
  import opened MinimalMerge
  import opened CodeLengths
  import opened HuffmanLengths
  import opened Canonical
  import opened HuffmanEncoder
  import opened Rle

  const LITLEN_SYMBOL_COUNT: nat := 286
  const DIST_SYMBOL_COUNT: nat := 30
  const MAX_BITS: nat := 15
  const CODELEN_MAX_BITS: nat := 7

  // ---- Every code built here satisfies Kraft's inequality ----------------------------------------

  /** A code for at most one symbol, of one bit. */
  lemma SingleCodeKraft(lengths: seq<nat>, m: nat)
    requires m >= 1 && |Positive(lengths)| <= 1 && forall s :: 0 <= s < |lengths| ==> lengths[s] <= 1
    ensures Kraft(lengths, m)
  {
    hide Sum, KraftSum;
    KraftBySymbol(lengths, m);
    var f := Share(lengths, m);
    if x: nat :| x in Positive(lengths) {
      AtMostOne(Positive(lengths), x);
      SumOne<nat>(x, f);
      assert Sum(Positive(lengths), f) == Pow2(m - lengths[x]);
      Pow2Monotone(m - lengths[x], m);
    } else {
      assert Positive(lengths) == {};
      SumOfNothing(f);
    }
  }

  lemma AtMostOne(s: set<nat>, x: nat)
    requires x in s && |s| <= 1
    ensures s == {x}
  {
    assert |s - {x}| == 0;
  }

  lemma PlannedKraft(freq: seq<nat>, lengths: seq<nat>, m: nat)
    requires m >= 1 && CodeFor(freq, lengths)
    requires |Used(freq)| <= 1 ==> forall s :: 0 <= s < |freq| ==> lengths[s] <= 1
    requires |Used(freq)| >= 2 ==> KraftSum(lengths, m) == Pow2(m) && forall s :: 0 <= s < |freq| ==> lengths[s] <= m
    ensures Kraft(lengths, m)
  {
    hide KraftSum, Pow2;
    assert Positive(lengths) == Used(freq);
    if |Used(freq)| <= 1 {
      SingleCodeKraft(lengths, m);
    }
  }

  /** No code for the same symbols makes the coded message shorter, as long as the weights cannot saturate. */
  ghost predicate Shortest(freq: seq<nat>, lengths: seq<nat>) {
    Sum(Used(freq), Freq(freq)) <= U32_MAX ==>
      forall n: nat, other: seq<nat> :: CodeFor(freq, other) && Valid(Used(freq), other, n) ==>
        MessageLength(Used(freq), freq, lengths) <= MessageLength(Used(freq), freq, other)
  }

  /** The only symbol in use has the shortest length there is. */
  lemma SingleIsShortest(freq: seq<nat>, lengths: seq<nat>)
    requires |Used(freq)| <= 1 && CodeFor(freq, lengths) && forall s :: 0 <= s < |freq| ==> lengths[s] <= 1
    ensures Shortest(freq, lengths)
  {
    hide Sum, Valid;
    forall n: nat, other: seq<nat> | CodeFor(freq, other) && Valid(Used(freq), other, n)
      ensures MessageLength(Used(freq), freq, lengths) <= MessageLength(Used(freq), freq, other)
    {
      if x: nat :| x in Used(freq) {
        AtMostOne(Used(freq), x);
        SumOne<nat>(x, Price(freq, lengths));
        SumOne<nat>(x, Price(freq, other));
        LongerCostsMore(freq[x], lengths[x], other[x]);
      } else {
        assert Used(freq) == {};
        SumOfNothing(Price(freq, lengths));
        SumOfNothing(Price(freq, other));
      }
    }
  }

  lemma LongerCostsMore(w: nat, a: nat, b: nat)
    requires a <= b
    ensures w * a <= w * b
  {
  }

  lemma BestIsShortest(tree: Tree, freq: seq<nat>, lengths: seq<nat>)
    requires BestTree(tree, freq) && MessageLength(Used(freq), freq, lengths) == MergeCost(tree, freq)
    ensures Shortest(freq, lengths)
  {
    hide Sum, Valid, Distinct, Symbols, MergeCost, MessageLength;
  }

  /** Code lengths within the limit that no code undercuts, or the reason why there are none: the optimal tree is
      too deep. */
  method PlanLengths(freq: seq<nat>, maxBits: nat) returns (r: Option<seq<nat>>, ghost tree: Tree)
    requires 1 <= maxBits < U8_MAX
    ensures r.Some? ==> CodeFor(freq, r.value) && Kraft(r.value, maxBits) && Shortest(freq, r.value)
    ensures r.None? ==> |Used(freq)| >= 2 && BestTree(tree, freq) && TooDeep(tree, maxBits)
  {
    hide Kraft, KraftSum, BestTree, TooDeep, MessageLength, MergeCost, CodeFor, Shortest;
    r, tree := BuildHuffmanCodeLengths(freq, maxBits);
    if r.Some? {
      PlannedKraft(freq, r.value, maxBits);
      if |Used(freq)| <= 1 {
        SingleIsShortest(freq, r.value);
      } else {
        BestIsShortest(tree, freq, r.value);
      }
    }
  }

  // ---- Leaving out trailing zero lengths ---------------------------------------------------------

  /** The lengths without some zero lengths at the end. */
  predicate TrimOf(lengths: seq<nat>, trimmed: seq<nat>) {
    trimmed <= lengths && forall i :: |trimmed| <= i < |lengths| ==> lengths[i] == 0
  }

  method KeptCount(lengths: seq<nat>, least: nat) returns (n: nat)
    requires least <= |lengths|
    ensures least <= n <= |lengths| && TrimOf(lengths, lengths[..n])
    ensures n > least ==> lengths[n - 1] != 0
  {
    n := |lengths|;
    while n > least && lengths[n - 1] == 0
      invariant least <= n <= |lengths| && TrimOf(lengths, lengths[..n])
    {
      n := n - 1;
    }
  }

  lemma {:induction false} CountOfTrim(lengths: seq<nat>, trimmed: seq<nat>, b: nat)
    requires TrimOf(lengths, trimmed) && b >= 1
    ensures Count(lengths, b) == Count(trimmed, b)
    decreases |lengths|
  {
    if |trimmed| < |lengths| {
      CountOfTrim(lengths[..|lengths| - 1], trimmed, b);
    } else {
      assert trimmed == lengths;
    }
  }

  lemma {:induction false} TrimKeepsSums(lengths: seq<nat>, trimmed: seq<nat>, n: nat)
    requires TrimOf(lengths, trimmed)
    ensures KraftSum(trimmed, n) == KraftSum(lengths, n) && FirstCode(trimmed, n) == FirstCode(lengths, n)
    decreases n
  {
    hide Count, TrimOf;
    if n > 0 {
      TrimKeepsSums(lengths, trimmed, n - 1);
      CountOfTrim(lengths, trimmed, n);
      if n > 1 {
        CountOfTrim(lengths, trimmed, n - 1);
      }
    }
  }

  /** The reader's shortened table assigns the same code to every symbol. */
  lemma TrimKeepsCodes(lengths: seq<nat>, trimmed: seq<nat>, m: nat)
    requires TrimOf(lengths, trimmed) && Kraft(lengths, m)
    ensures Kraft(trimmed, m)
    ensures forall sym :: 0 <= sym < |trimmed| ==> SymbolBits(trimmed, sym) == SymbolBits(lengths, sym)
  {
    hide Count, KraftSum, FirstCode, CodeBits;
    TrimKeepsSums(lengths, trimmed, m);
    forall sym | 0 <= sym < |trimmed|
      ensures SymbolBits(trimmed, sym) == SymbolBits(lengths, sym)
    {
      assert trimmed[..sym] == lengths[..sym];
      TrimKeepsSums(lengths, trimmed, lengths[sym]);
    }
  }

  // ---- The lengths of the code length alphabet ---------------------------------------------------

  /** Where a code length symbol stands in the transmission order. */
  const POSITION: seq<nat> := [3, 17, 15, 13, 11, 9, 7, 5, 4, 6, 8, 10, 12, 14, 16, 18, 0, 1, 2]

  lemma OrderAndPosition(i: nat)
    requires i < 19
    ensures CODELEN_ORDER[i] < 19 && POSITION[CODELEN_ORDER[i]] == i
    ensures POSITION[i] < 19 && CODELEN_ORDER[POSITION[i]] == i
  {
  }

  lemma OrderDistinct(s: nat, idx: nat)
    requires s < 19 && idx < 19
    ensures CODELEN_ORDER[idx] < 19 && (POSITION[s] == idx <==> s == CODELEN_ORDER[idx])
  {
    OrderAndPosition(s);
    OrderAndPosition(idx);
  }

  /** The reader's table after `idx` of the lengths. */
  function Received(cl: seq<nat>, idx: nat): (r: seq<nat>)
    requires |cl| == 19
    ensures |r| == 19
  {
    seq(19, s requires 0 <= s < 19 => if POSITION[s] < idx then cl[s] else 0)
  }

  lemma ReceiveNext(cl: seq<nat>, idx: nat)
    requires |cl| == 19 && idx < 19
    ensures CODELEN_ORDER[idx] < 19
    ensures Received(cl, idx + 1) == Received(cl, idx)[CODELEN_ORDER[idx] := cl[CODELEN_ORDER[idx]]]
  {
    OrderAndPosition(idx);
    var sym := CODELEN_ORDER[idx];
    var next, updated := Received(cl, idx + 1), Received(cl, idx)[sym := cl[sym]];
    forall s: nat | s < 19
      ensures next[s] == updated[s]
    {
      OrderDistinct(s, idx);
    }
  }

  /** The lengths that are sent cover all that are not zero. */
  predicate Covers(cl: seq<nat>, hclen: nat)
    requires |cl| == 19
  {
    forall s :: 0 <= s < 19 && POSITION[s] >= hclen ==> cl[s] == 0
  }

  function CodeLenBits(cl: seq<nat>, n: nat): (s: Bits)
    requires |cl| == 19 && n <= 19
    ensures |s| == 3 * n
  {
    if n == 0 then [] else CodeLenBits(cl, n - 1) + NatBits(cl[CODELEN_ORDER[n - 1]], 3)
  }

  lemma {:induction false} CodeLenReadsBack(s: Bits, p: nat, cl: seq<nat>, idx: nat, hclen: nat)
    requires |cl| == 19 && idx <= hclen <= 19 && forall i :: 0 <= i < 19 ==> cl[i] < 8
    requires p + 3 * idx <= |s| && s[p..p + 3 * idx] == CodeLenBits(cl, idx)
    ensures ReadCodeLenLengths(s, p, 0, hclen, Repeat(0, 19)) ==
            ReadCodeLenLengths(s, p + 3 * idx, idx, hclen, Received(cl, idx))
  {
    hide NatBits, ReadBits, Received, CodeLenBits;
    if idx == 0 {
      ReceivedNothing(cl);
    } else {
      var k: nat := idx - 1;
      OneCodeLen(s, p, cl, k);
      CodeLenReadsBack(s, p, cl, k, hclen);
      ReceiveNext(cl, k);
    }
  }

  lemma OneCodeLen(s: Bits, p: nat, cl: seq<nat>, k: nat)
    requires |cl| == 19 && k < 19 && forall i :: 0 <= i < 19 ==> cl[i] < 8
    requires p + 3 * (k + 1) <= |s| && s[p..p + 3 * (k + 1)] == CodeLenBits(cl, k + 1)
    ensures CODELEN_ORDER[k] < 19 && ReadBits(s, p + 3 * k, 3) == Ok(cl[CODELEN_ORDER[k]], p + 3 * k + 3)
    ensures s[p..p + 3 * k] == CodeLenBits(cl, k)
  {
    hide NatBits, ReadBits;
    OrderAndPosition(k);
    var part := s[p..p + 3 * (k + 1)];
    assert part[..3 * k] == s[p..p + 3 * k];
    assert part[3 * k..] == s[p + 3 * k..p + 3 * k + 3];
    SmallPowers();
    FieldReadsBack(s, p + 3 * k, cl[CODELEN_ORDER[k]], 3);
  }

  lemma ReceivedNothing(cl: seq<nat>)
    requires |cl| == 19
    ensures Received(cl, 0) == Repeat(0, 19)
  {
  }

  lemma ReceivedAll(cl: seq<nat>, hclen: nat)
    requires |cl| == 19 && Covers(cl, hclen)
    ensures Received(cl, hclen) == cl
  {
  }

  // ---- The header --------------------------------------------------------------------------------

  datatype Header = Header(hlit: nat, hdist: nat, hclen: nat, codelen: seq<nat>, items: seq<RleItem>) {
    predicate Ok() {
      && 257 <= hlit <= LITLEN_SYMBOL_COUNT && 1 <= hdist <= DIST_SYMBOL_COUNT && 4 <= hclen <= 19
      && |codelen| == 19 && Kraft(codelen, CODELEN_MAX_BITS) && Covers(codelen, hclen)
      && ItemsOk(items) && AllCoded(codelen, items)
      && Unrolled(items).Some? && |Unrolled(items).value| == hlit + hdist
    }

    function Fields(): (s: Bits)
      requires Ok()
      ensures |s| == 17
    {
      [true] + NatBits(2, 2) + NatBits(hlit - 257, 5) + NatBits(hdist - 1, 5) + NatBits(hclen - 4, 4)
    }

    function Written(): Bits
      requires Ok()
    {
      Fields() + CodeLenBits(codelen, hclen) + ItemsBits(codelen, items)
    }
  }

  lemma FieldPowers()
    ensures Pow2(2) == 4 && Pow2(4) == 16 && Pow2(5) == 32
  {
    assert Pow2(3) == 8;
  }

  /** Where the fixed fields stand in the header. */
  lemma FieldsAt(h: Header, s: Bits)
    requires h.Ok() && |s| >= 17 && s[..17] == h.Fields()
    ensures s[0] && s[1..3] == NatBits(2, 2)
    ensures s[3..8] == NatBits(h.hlit - 257, 5) && s[8..13] == NatBits(h.hdist - 1, 5)
    ensures s[13..17] == NatBits(h.hclen - 4, 4)
  {
    hide NatBits;
    var a, b, c, d := NatBits(2, 2), NatBits(h.hlit - 257, 5), NatBits(h.hdist - 1, 5), NatBits(h.hclen - 4, 4);
    assert h.Fields() == [true] + a + b + c + d;
    var f := s[..17];
    assert s[0] == f[0];
    assert s[1..3] == f[1..3] && s[3..8] == f[3..8] && s[8..13] == f[8..13] && s[13..17] == f[13..17];
  }

  /** The code tables behind the fixed fields. */
  lemma TablesReadBack(h: Header, s: Bits)
    requires h.Ok() && |h.Written()| <= |s| && s[..|h.Written()|] == h.Written()
    ensures var lengths := Unrolled(h.items).value;
            ReadTables(s, 17, h.hlit, h.hdist, h.hclen)
            == Ok(Trees(lengths[..h.hlit], lengths[h.hlit..]), |h.Written()|)
  {
    hide CodeLenBits, ItemsBits, Unrolled, Kraft, Format.ReadCodeLenLengths, ReadLengths, Covers, AllCoded, ItemsOk;
    hide Header.Fields;
    var cl, n := h.codelen, 3 * h.hclen;
    var lengths := Unrolled(h.items).value;
    var bits := h.Written();
    ThreeParts(s, h.Fields(), CodeLenBits(cl, h.hclen), ItemsBits(cl, h.items));
    SmallLengths(cl);
    CodeLenReadsBack(s, 17, cl, h.hclen, h.hclen);
    CodeLenDone(s, 17 + n, cl, h.hclen);
    ItemsReadBack(s, 17 + n, cl, CODELEN_MAX_BITS, h.hlit + h.hdist, h.items);
    LengthsDone(s, |bits|, cl, h.hlit + h.hdist, lengths);
  }

  lemma ThreeParts(s: Bits, a: Bits, b: Bits, c: Bits)
    requires |a + b + c| <= |s| && s[..|a + b + c|] == a + b + c
    ensures s[|a|..|a| + |b|] == b && s[|a| + |b|..|a| + |b| + |c|] == c
  {
    SliceOfSlice(s, 0, |a + b + c|, |a|, |a| + |b|);
    SliceOfSlice(s, 0, |a + b + c|, |a| + |b|, |a| + |b| + |c|);
    assert (a + b + c)[|a|..|a| + |b|] == b && (a + b + c)[|a| + |b|..] == c;
  }

  lemma SmallLengths(cl: seq<nat>)
    requires Kraft(cl, CODELEN_MAX_BITS)
    ensures forall i :: 0 <= i < |cl| ==> cl[i] < 8
  {
  }

  lemma CodeLenDone(s: Bits, p: nat, cl: seq<nat>, hclen: nat)
    requires |cl| == 19 && hclen <= 19 && Covers(cl, hclen)
    ensures ReadCodeLenLengths(s, p, hclen, hclen, Received(cl, hclen)) == Ok(cl, p)
  {
    hide Received, Covers;
    ReceivedAll(cl, hclen);
  }

  lemma LengthsDone(s: Bits, p: nat, cl: seq<nat>, total: nat, lengths: seq<nat>)
    requires |lengths| == total
    ensures ReadLengths(s, p, cl, total, lengths) == Ok(lengths, p)
  {
  }

  /** The reader recovers both tables from the header and stops behind its last bit, whatever follows. */
  lemma HeaderReadsBack(h: Header, tail: Bits)
    requires h.Ok()
    ensures var s, lengths := h.Written() + tail, Unrolled(h.items).value;
            && ReadBits(s, 0, 1) == Ok(1, 1) && ReadBits(s, 1, 2) == Ok(2, 3)
            && ReadDynamicTrees(s, 3) == Ok(Trees(lengths[..h.hlit], lengths[h.hlit..]), |h.Written()|)
  {
    hide NatBits, ReadTables, Unrolled, Header.Fields, CodeLenBits, ItemsBits, Value;
    var s := h.Written() + tail;
    assert s[..17] == h.Fields() && s[..|h.Written()|] == h.Written();
    FieldsAt(h, s);
    FieldPowers();
    FieldReadsBack(s, 1, 2, 2);
    FieldReadsBack(s, 3, h.hlit - 257, 5);
    FieldReadsBack(s, 8, h.hdist - 1, 5);
    FieldReadsBack(s, 13, h.hclen - 4, 4);
    OneBit(s);
    TablesReadBack(h, s);
  }

  lemma OneBit(s: Bits)
    requires |s| > 0 && s[0]
    ensures ReadBits(s, 0, 1) == Ok(1, 1)
  {
    assert s[0..1] == [true];
    assert [true][1..] == [];
    assert Value([true]) == 1;
  }
}
