/** Building the plan of a dynamic block, and what a reader makes of the planned header and codes. */
module DynamicPlan {
  import opened Options
  import opened Bits
  import opened Format
  import opened CodeLengths
  import opened HuffmanLengths
  import opened Canonical
  import opened HuffmanEncoder
  import opened Rle
  import opened DynamicHeader

  datatype PlanError = BadTableSize | NoLitlenLengths | NoDistLengths | NoCodelenLengths

  datatype PlanResult = Planned(plan: DynamicHuffmanPlan) | Refused(error: PlanError)

  datatype DynamicHuffmanPlan = DynamicHuffmanPlan(
    dynTable: seq<nat>,
    headerBytesPadded: seq<nat>,
    headerCopySize: nat,
    headerBits: nat,
    eobCode: nat,
    eobBits: nat)

  // ---- Writing the header ------------------------------------------------------------------------

  method WriteFields(w: BitWriter, h: Header)
    requires h.Ok() && w.Valid()
    modifies w
    ensures w.Valid() && w.View() == old(w.View()) + h.Fields()
  {
    hide NatBits, OctetBits, Kraft, Unrolled, Covers, AllCoded, ItemsOk, Pow2;
    FieldPowers();
    OneBitField();
    w.WriteBits(1, 1);
    w.WriteBits(2, 2);
    w.WriteBits(h.hlit - 257, 5);
    w.WriteBits(h.hdist - 1, 5);
    w.WriteBits(h.hclen - 4, 4);
    assert w.View() == old(w.View()) + h.Fields();
  }

  lemma OneBitField()
    ensures NatBits(1, 1) == [true] && Pow2(1) == 2
  {
    assert NatBits(0, 0) == [];
  }

  lemma Regroup(a: Bits, b: Bits, c: Bits)
    ensures a + b + c == a + (b + c)
  {
  }

  method WriteCodeLenLengths(w: BitWriter, cl: seq<nat>, hclen: nat)
    requires w.Valid() && |cl| == 19 && hclen <= 19 && forall i :: 0 <= i < 19 ==> cl[i] < 8
    modifies w
    ensures w.Valid() && w.View() == old(w.View()) + CodeLenBits(cl, hclen)
  {
    hide NatBits, OctetBits, Pow2;
    ghost var v := w.View();
    ThreeBits();
    for i := 0 to hclen
      invariant w.Valid() && w.View() == v + CodeLenBits(cl, i)
    {
      OrderAndPosition(i);
      var sym := CODELEN_ORDER[i];
      w.WriteBits(cl[sym], 3);
      Regroup(v, CodeLenBits(cl, i), NatBits(cl[sym], 3));
    }
  }

  lemma ThreeBits()
    ensures Pow2(3) == 8
  {
  }

  method WriteItem(w: BitWriter, item: RleItem, codes: seq<CodeEntry>, ghost cl: seq<nat>)
    requires w.Valid() && |cl| == 19 == |codes| && Kraft(cl, CODELEN_MAX_BITS) && ItemOk(item) && cl[item.symbol] > 0
    requires codes[item.symbol] == EntryOf(cl, item.symbol)
    modifies w
    ensures w.Valid() && w.View() == old(w.View()) + ItemBits(cl, item)
  {
    hide NatBits, OctetBits, Pow2, Kraft, SymbolBits, EntryOf;
    ghost var v := w.View();
    WriteSymbol(w, codes, item.symbol, cl, CODELEN_MAX_BITS);
    NoField(item.extra);
    if item.symbol == 16 {
      w.WriteBits(item.extra, 2);
    } else if item.symbol == 17 {
      w.WriteBits(item.extra, 3);
    } else if item.symbol == 18 {
      w.WriteBits(item.extra, 7);
    }
    assert w.View() == v + ItemBits(cl, item);
  }

  lemma NoField(v: nat)
    ensures NatBits(v, 0) == []
  {
  }

  /** Refuses exactly when some item has no code. */
  method WriteItems(w: BitWriter, items: seq<RleItem>, codes: seq<CodeEntry>, ghost cl: seq<nat>) returns (ok: bool)
    requires w.Valid() && |cl| == 19 == |codes| && Kraft(cl, CODELEN_MAX_BITS) && ItemsOk(items)
    requires forall sym :: 0 <= sym < 19 ==> codes[sym] == EntryOf(cl, sym)
    modifies w
    ensures w.Valid() && (ok <==> AllCoded(cl, items))
    ensures ok ==> w.View() == old(w.View()) + ItemsBits(cl, items)
  {
    hide ItemBits, Kraft, OctetBits, SymbolBits, ItemOk, Value, BitWriter.View;
    ghost var v := w.View();
    assert v == v + ItemsBits(cl, items[..0]);
    for i := 0 to |items|
      invariant w.Valid() && AllCoded(cl, items[..i]) && w.View() == v + ItemsBits(cl, items[..i])
    {
      ItemKnown(items, i);
      if codes[items[i].symbol].bits == 0 {
        return false;
      }
      WriteItem(w, items[i], codes, cl);
      assert items[..i + 1][..i] == items[..i];
      Regroup(v, ItemsBits(cl, items[..i]), ItemBits(cl, items[i]));
    }
    assert items[..|items|] == items;
    return true;
  }

  lemma ItemKnown(items: seq<RleItem>, i: nat)
    requires ItemsOk(items) && i < |items|
    ensures ItemOk(items[i]) && items[i].symbol <= 18 && ItemsOk(items[..i]) && ItemsOk(items[..i + 1])
  {
  }

  // ---- Frequencies -------------------------------------------------------------------------------

  predicate Unused(freq: seq<nat>) {
    forall s :: 0 <= s < |freq| ==> freq[s] == 0
  }

  /** One use of the first symbol where there was none at all, and else the table as it was. */
  predicate OneForNone(before: seq<nat>, after: seq<nat>) {
    && |after| == |before| > 0 && after[0] == (if Unused(before) then 1 else before[0])
    && forall s :: 1 <= s < |before| ==> after[s] == before[s]
  }

  /** One more use of the end-of-block symbol, within 32 bits, and every other frequency as it was. */
  predicate OneMoreEnd(before: seq<nat>, after: seq<nat>) {
    && |after| == |before| == LITLEN_SYMBOL_COUNT
    && (before[256] < U32_MAX ==> after[256] == before[256] + 1)
    && (before[256] >= U32_MAX ==> after[256] == U32_MAX)
    && forall s :: 0 <= s < |before| && s != 256 ==> after[s] == before[s]
  }

  /** A table without any use gets one for its first symbol. */
  function SomeUsed(freq: seq<nat>): (r: seq<nat>)
    requires freq != []
    ensures OneForNone(freq, r)
  {
    if Unused(freq) then freq[0 := 1] else freq
  }

  /** Every literal and length table has a use of the end-of-block symbol. */
  function WithEndOfBlock(freq: seq<nat>): (r: seq<nat>)
    requires |freq| == LITLEN_SYMBOL_COUNT
    ensures OneMoreEnd(freq, r)
  {
    freq[256 := SatAdd32(freq[256], 1)]
  }

  /** The code has a length for exactly the literals and lengths in use and for the end of the block. */
  predicate ServesLiterals(freq: seq<nat>, lit: seq<nat>) {
    && |lit| == |freq| == LITLEN_SYMBOL_COUNT
    && forall s :: 0 <= s < |freq| ==> (lit[s] > 0 <==> freq[s] > 0 || s == 256)
  }

  /** The code has a length for exactly the distances in use, and for the first one when none is. */
  predicate ServesDistances(freq: seq<nat>, dist: seq<nat>) {
    && |dist| == |freq| == DIST_SYMBOL_COUNT
    && forall s :: 0 <= s < |freq| ==> (dist[s] > 0 <==> freq[s] > 0 || (s == 0 && Unused(freq)))
  }

  lemma ServesInput(litFreq: seq<nat>, distFreq: seq<nat>, lit: seq<nat>, dist: seq<nat>)
    requires |litFreq| == LITLEN_SYMBOL_COUNT && |distFreq| == DIST_SYMBOL_COUNT
    requires CodeFor(WithEndOfBlock(litFreq), lit) && CodeFor(SomeUsed(distFreq), dist)
    ensures ServesLiterals(litFreq, lit) && ServesDistances(distFreq, dist)
  {
    hide SatAdd32;
    var more, some := WithEndOfBlock(litFreq), SomeUsed(distFreq);
    hide WithEndOfBlock, SomeUsed;
    if !Unused(distFreq) {
      assert forall s :: 0 <= s < |distFreq| ==> some[s] == distFreq[s];
    }
  }

  /** How often a symbol occurs among the items. */
  function Uses(items: seq<RleItem>, s: nat): nat {
    if items == [] then 0
    else
      var before := Uses(items[..|items| - 1], s);
      if items[|items| - 1].symbol == s then SatAdd32(before, 1) else before
  }

  function AllUses(items: seq<RleItem>): (freq: seq<nat>)
    ensures |freq| == 19 && forall s :: 0 <= s < 19 ==> freq[s] == Uses(items, s)
  {
    seq(19, s requires 0 <= s < 19 => Uses(items, s))
  }

  lemma {:induction false} UsedIfThere(items: seq<RleItem>, k: nat)
    requires k < |items|
    ensures Uses(items, items[k].symbol) > 0
    decreases |items|
  {
    if k < |items| - 1 {
      UsedIfThere(items[..|items| - 1], k);
    }
  }

  /** Where a symbol occurs among the items. */
  function Places(items: seq<RleItem>, s: nat): set<nat> {
    set k: nat | k < |items| && items[k].symbol == s
  }

  /** The counters hold the numbers of occurrences, within 32 bits. */
  lemma {:induction false} UsesArePlaces(items: seq<RleItem>, s: nat)
    ensures Uses(items, s) == if |Places(items, s)| <= U32_MAX then |Places(items, s)| else U32_MAX
    decreases |items|
  {
    if items == [] {
      assert Places(items, s) == {};
    } else {
      var last: nat := |items| - 1;
      UsesArePlaces(items[..last], s);
      if items[last].symbol == s {
        assert Places(items, s) == Places(items[..last], s) + {last};
      } else {
        assert Places(items, s) == Places(items[..last], s);
      }
    }
  }

  method CountSymbols(items: seq<RleItem>) returns (freq: seq<nat>)
    requires ItemsOk(items)
    ensures freq == AllUses(items)
  {
    var counts := new nat[19](_ => 0);
    for i := 0 to |items|
      invariant forall s :: 0 <= s < 19 ==> counts[s] == Uses(items[..i], s)
    {
      ItemKnown(items, i);
      assert items[..i + 1][..i] == items[..i];
      var sym := items[i].symbol;
      counts[sym] := SatAdd32(counts[sym], 1);
    }
    assert items[..|items|] == items;
    return counts[..];
  }

  // ---- Padding to words --------------------------------------------------------------------------

  lemma {:induction false} OctetBitsConcat(a: seq<nat>, b: seq<nat>)
    ensures OctetBits(a + b) == OctetBits(a) + OctetBits(b)
    decreases |b|
  {
    hide NatBits;
    if b == [] {
      assert a + b == a;
    } else {
      var init := b[..|b| - 1];
      OctetBitsConcat(a, init);
      assert (a + b)[..|a + b| - 1] == a + init;
    }
  }

  lemma {:induction false} ZeroOctets(n: nat)
    ensures OctetBits(Repeat(0, n)) == Zeros(8 * n)
  {
    hide NatBits;
    if n > 0 {
      ZeroOctets(n - 1);
      NatBitsOfZero(8);
      assert Repeat(0, n)[..n - 1] == Repeat(0, n - 1);
      assert Zeros(8 * (n - 1)) + Zeros(8) == Zeros(8 * n);
    }
  }

  method PadToWords(octets: seq<nat>) returns (padded: seq<nat>)
    ensures |padded| % 4 == 0 && |octets| <= |padded| < |octets| + 4
    ensures OctetBits(padded) == OctetBits(octets) + Zeros(8 * (|padded| - |octets|))
    ensures AllOctets(octets) ==> AllOctets(padded)
  {
    hide OctetBits, Zeros, Repeat;
    var words := (|octets| + 3) / 4;
    var missing: nat := 4 * words - |octets|;
    padded := octets + Repeat(0, missing);
    OctetBitsConcat(octets, Repeat(0, missing));
    ZeroOctets(missing);
  }

  // ---- The plan ----------------------------------------------------------------------------------

  function CodeColumn(lengths: seq<nat>): (r: seq<nat>)
    ensures |r| == |lengths|
  {
    seq(|lengths|, s requires 0 <= s < |lengths| => EntryOf(lengths, s).code)
  }

  method Columns(codes: seq<CodeEntry>, ghost lengths: seq<nat>) returns (codeColumn: seq<nat>, bitColumn: seq<nat>)
    requires |codes| == |lengths| && forall s :: 0 <= s < |lengths| ==> codes[s] == EntryOf(lengths, s)
    ensures codeColumn == CodeColumn(lengths) && bitColumn == lengths
  {
    hide SymbolBits, Value;
    codeColumn, bitColumn := [], [];
    for i := 0 to |codes|
      invariant codeColumn == CodeColumn(lengths)[..i] && bitColumn == lengths[..i]
    {
      codeColumn := codeColumn + [codes[i].code];
      bitColumn := bitColumn + [codes[i].bits];
    }
  }

  /** The header carries the lengths of two codes without the zeros at their ends. */
  ghost predicate Carries(h: Header, lit: seq<nat>, dist: seq<nat>) {
    && |lit| == LITLEN_SYMBOL_COUNT && |dist| == DIST_SYMBOL_COUNT && h.Ok()
    && Kraft(lit, MAX_BITS) && Kraft(dist, MAX_BITS)
    && TrimOf(lit, lit[..h.hlit]) && TrimOf(dist, dist[..h.hdist])
    && Unrolled(h.items) == Some(lit[..h.hlit] + dist[..h.hdist])
  }

  /** Nothing is sent that could be left out: no zeros behind the last code of a table, within the least numbers that
      the format asks for; and no code for the runs is shorter. */
  ghost predicate Lean(h: Header, lit: seq<nat>, dist: seq<nat>) {
    && (h.hlit > 257 ==> h.hlit <= |lit| && lit[h.hlit - 1] > 0)
    && (h.hdist > 1 ==> h.hdist <= |dist| && dist[h.hdist - 1] > 0)
    && (h.hclen > 4 ==> h.hclen <= 19 == |h.codelen| && h.codelen[CODELEN_ORDER[h.hclen - 1]] > 0)
    && exists freq :: CountsPlaces(freq, h.items) && Shortest(freq, h.codelen)
  }

  /** The plan holds the header, padded with zeros to whole words, and the code tables of the two alphabets. */
  ghost predicate Holds(plan: DynamicHuffmanPlan, h: Header, lit: seq<nat>, dist: seq<nat>)
    requires h.Ok() && |lit| > 256
  {
    && plan.headerBits == |h.Written()|
    && plan.headerCopySize == |plan.headerBytesPadded| && plan.headerCopySize % 4 == 0
    && plan.headerBits <= 8 * plan.headerCopySize < plan.headerBits + 40 && AllOctets(plan.headerBytesPadded)
    && OctetBits(plan.headerBytesPadded) == h.Written() + Zeros(8 * plan.headerCopySize - plan.headerBits)
    && plan.dynTable == CodeColumn(lit) + lit + CodeColumn(dist) + dist
    && CodeEntry(plan.eobCode, plan.eobBits) == EntryOf(lit, 256) && plan.eobBits > 0
  }

  /** The uses of the code length symbols when the two tables, without zeros at their ends, are written as runs. */
  ghost predicate CountsRuns(freq: seq<nat>, lit: seq<nat>, dist: seq<nat>) {
    exists items, hlit: nat, hdist: nat ::
      && hlit <= |lit| && hdist <= |dist| && TrimOf(lit, lit[..hlit]) && TrimOf(dist, dist[..hdist])
      && ItemsOk(items) && Unrolled(items) == Some(lit[..hlit] + dist[..hdist]) && CountsPlaces(freq, items)
  }

  /** The table holds how often each symbol occurs among the items. */
  ghost predicate CountsPlaces(freq: seq<nat>, items: seq<RleItem>) {
    && |freq| == 19
    && forall s :: 0 <= s < 19 ==> freq[s] == if |Places(items, s)| <= U32_MAX then |Places(items, s)| else U32_MAX
  }

  /** There is always something to count: the literals and lengths have places in the header. */
  lemma SomethingCounted(items: seq<RleItem>, lengths: seq<nat>)
    requires ItemsOk(items) && Unrolled(items) == Some(lengths) && lengths != []
    ensures SomeUsed(AllUses(items)) == AllUses(items) && CountsPlaces(AllUses(items), items)
  {
    hide ItemOk;
    forall s: nat | s < 19
      ensures AllUses(items)[s] == if |Places(items, s)| <= U32_MAX then |Places(items, s)| else U32_MAX
    {
      UsesArePlaces(items, s);
    }
    if items == [] {
      NothingUnrolled();
    } else {
      ItemKnown(items, 0);
      UsedIfThere(items, 0);
      assert AllUses(items)[items[0].symbol] > 0;
    }
  }

  method PlanHeader(lit: seq<nat>, dist: seq<nat>)
    returns (r: Option<(Header, seq<CodeEntry>)>, ghost clFreq: seq<nat>, ghost clTree: Tree)
    requires |lit| == LITLEN_SYMBOL_COUNT && |dist| == DIST_SYMBOL_COUNT
    requires Kraft(lit, MAX_BITS) && Kraft(dist, MAX_BITS)
    ensures r.Some? ==> Carries(r.value.0, lit, dist) && Lean(r.value.0, lit, dist) && |r.value.1| == 19
    ensures r.Some? ==> forall s :: 0 <= s < 19 ==> r.value.1[s] == EntryOf(r.value.0.codelen, s)
    ensures r.None? ==> CountsRuns(clFreq, lit, dist) && BestTree(clTree, clFreq) && TooDeep(clTree, CODELEN_MAX_BITS)
  {
    hide BestTree, TooDeep, Unrolled, ItemsOk, TrimOf, SymbolBits, Value, KraftSum, CountsPlaces, SomeUsed;
    hide Uses, AllUses, Lean, Shortest;
    var hlit := KeptCount(lit, 257);
    var hdist := KeptCount(dist, 1);
    var items := EncodeCodeLengthsRle(lit[..hlit] + dist[..hdist]);
    var counted := CountSymbols(items);
    SomethingCounted(items, lit[..hlit] + dist[..hdist]);
    clFreq := SomeUsed(counted);
    var cl;
    cl, clTree := PlanLengths(SomeUsed(counted), CODELEN_MAX_BITS);
    if cl.None? {
      assert CountsRuns(clFreq, lit, dist);
      return None, clFreq, clTree;
    }
    var hclen := SentCount(cl.value);
    AllItemsCoded(items, counted, cl.value);
    var codes := BuildCanonicalCodes(cl.value, CODELEN_MAX_BITS);
    var header := Header(hlit, hdist, hclen, cl.value, items);
    NothingToSpare(header, lit, dist, clFreq);
    return Some((header, codes.value)), clFreq, clTree;
  }

  lemma NothingToSpare(h: Header, lit: seq<nat>, dist: seq<nat>, freq: seq<nat>)
    requires h.hlit <= |lit| && h.hdist <= |dist| && h.hclen <= 19 == |h.codelen|
    requires h.hlit > 257 ==> lit[h.hlit - 1] != 0
    requires h.hdist > 1 ==> dist[h.hdist - 1] != 0
    requires h.hclen > 4 ==> CODELEN_ORDER[h.hclen - 1] < 19 && h.codelen[CODELEN_ORDER[h.hclen - 1]] != 0
    requires CountsPlaces(freq, h.items) && Shortest(freq, h.codelen)
    ensures Lean(h, lit, dist)
  {
    hide CountsPlaces, Shortest;
  }

  lemma AllItemsCoded(items: seq<RleItem>, counted: seq<nat>, cl: seq<nat>)
    requires ItemsOk(items) && counted == AllUses(items) && CodeFor(SomeUsed(counted), cl)
    ensures AllCoded(cl, items)
  {
    forall k | 0 <= k < |items|
      ensures cl[items[k].symbol] > 0
    {
      ItemKnown(items, k);
      UsedIfThere(items, k);
      assert counted[items[k].symbol] > 0;
    }
  }

  /** How many of the code length alphabet's lengths are sent. */
  method SentCount(cl: seq<nat>) returns (n: nat)
    requires |cl| == 19
    ensures 4 <= n <= 19 && Covers(cl, n)
    ensures n > 4 ==> cl[CODELEN_ORDER[n - 1]] != 0
  {
    n := 19;
    while n > 4 && cl[CODELEN_ORDER[n - 1]] == 0
      invariant 4 <= n <= 19 && Covers(cl, n)
    {
      forall s | 0 <= s < 19 && POSITION[s] >= n - 1
        ensures cl[s] == 0
      {
        OrderDistinct(s, n - 1);
      }
      n := n - 1;
    }
  }

  method WriteHeader(h: Header, codes: seq<CodeEntry>) returns (padded: seq<nat>, headerBits: nat)
    requires h.Ok() && |codes| == 19 && forall s :: 0 <= s < 19 ==> codes[s] == EntryOf(h.codelen, s)
    ensures headerBits == |h.Written()| && |padded| % 4 == 0
    ensures headerBits <= 8 * |padded| < headerBits + 40
    ensures OctetBits(padded) == h.Written() + Zeros(8 * |padded| - headerBits) && AllOctets(padded)
  {
    hide OctetBits, Kraft, Unrolled, Covers, AllCoded, ItemsOk, Header.Fields, CodeLenBits, ItemsBits, EntryOf, PadTo8;
    var w := new BitWriter();
    WriteFields(w, h);
    SmallLengths(h.codelen);
    WriteCodeLenLengths(w, h.codelen, h.hclen);
    var _ := WriteItems(w, h.items, codes, h.codelen);
    headerBits := w.totalBits;
    StartsEmpty(h);
    var octets := w.Finish();
    padded := PadToWords(octets);
    JoinZeros(h.Written(), PadTo8(headerBits), 8 * (|padded| - |octets|));
  }

  lemma StartsEmpty(h: Header)
    requires h.Ok()
    ensures [] + h.Fields() + CodeLenBits(h.codelen, h.hclen) + ItemsBits(h.codelen, h.items) == h.Written()
  {
    hide Header.Fields, CodeLenBits, ItemsBits, Kraft, Covers, AllCoded, ItemsOk, Unrolled;
    assert [] + h.Fields() == h.Fields();
  }

  lemma JoinZeros(b: Bits, m: nat, n: nat)
    ensures b + Zeros(m) + Zeros(n) == b + Zeros(m + n)
  {
  }

  /** From the frequencies to the plan. The planned codes serve exactly the symbols that the two tables count, besides
      the end of the block and a first distance, and no code for these symbols is shorter; the plan holds them. It is
      refused only for wrong table sizes or because one of the optimal trees is too deep. */
  method BuildDynamicHuffmanPlan(litlenFreqIn: seq<nat>, distFreqIn: seq<nat>)
    returns (r: PlanResult, ghost h: Header, ghost lit: seq<nat>, ghost dist: seq<nat>, ghost deep: (seq<nat>, Tree))
    ensures r == Refused(BadTableSize) <==> |litlenFreqIn| != LITLEN_SYMBOL_COUNT || |distFreqIn| != DIST_SYMBOL_COUNT
    ensures r == Refused(NoLitlenLengths) ==>
              OneMoreEnd(litlenFreqIn, deep.0) && BestTree(deep.1, deep.0) && TooDeep(deep.1, MAX_BITS)
    ensures r == Refused(NoDistLengths) ==>
              OneForNone(distFreqIn, deep.0) && BestTree(deep.1, deep.0) && TooDeep(deep.1, MAX_BITS)
    ensures r == Refused(NoCodelenLengths) ==>
              CountsRuns(deep.0, lit, dist) && BestTree(deep.1, deep.0) && TooDeep(deep.1, CODELEN_MAX_BITS)
    ensures r.Planned? || r == Refused(NoCodelenLengths) ==>
              && ServesLiterals(litlenFreqIn, lit) && Shortest(WithEndOfBlock(litlenFreqIn), lit)
              && Kraft(lit, MAX_BITS)
              && ServesDistances(distFreqIn, dist) && Shortest(SomeUsed(distFreqIn), dist) && Kraft(dist, MAX_BITS)
    ensures r.Planned? ==> Carries(h, lit, dist) && Lean(h, lit, dist) && Holds(r.plan, h, lit, dist)
  {
    hide Kraft, BestTree, TooDeep, OctetBits, Header.Ok, TrimOf, Unrolled, CodeColumn, Value, SymbolBits;
    hide Header.Written, CodeFor, Shortest, ServesLiterals, ServesDistances, OneMoreEnd, OneForNone;
    hide WithEndOfBlock, SomeUsed, CountsRuns, Lean;
    h, lit, dist, deep := Header(0, 0, 0, [], []), [], [], ([], Leaf(0));
    if |litlenFreqIn| != LITLEN_SYMBOL_COUNT || |distFreqIn| != DIST_SYMBOL_COUNT {
      return Refused(BadTableSize), h, lit, dist, deep;
    }
    var litlenFreq, distFreq := WithEndOfBlock(litlenFreqIn), SomeUsed(distFreqIn);
    var litlenLengths, litTree := PlanLengths(litlenFreq, MAX_BITS);
    if litlenLengths.None? {
      return Refused(NoLitlenLengths), h, lit, dist, (litlenFreq, litTree);
    }
    var distLengths, distTree := PlanLengths(distFreq, MAX_BITS);
    if distLengths.None? {
      return Refused(NoDistLengths), h, lit, dist, (distFreq, distTree);
    }
    lit, dist := litlenLengths.value, distLengths.value;
    ServesInput(litlenFreqIn, distFreqIn, lit, dist);
    ServesSizes(litlenFreqIn, distFreqIn, lit, dist);
    var header, clFreq, clTree := PlanHeader(litlenLengths.value, distLengths.value);
    if header.None? {
      return Refused(NoCodelenLengths), h, lit, dist, (clFreq, clTree);
    }
    h := header.value.0;
    CarriesOk(h, lit, dist);
    var litCodes := BuildCanonicalCodes(litlenLengths.value, MAX_BITS);
    var distCodes := BuildCanonicalCodes(distLengths.value, MAX_BITS);
    var padded, headerBits := WriteHeader(header.value.0, header.value.1);
    var litCodeColumn, litBitColumn := Columns(litCodes.value, lit);
    var distCodeColumn, distBitColumn := Columns(distCodes.value, dist);
    var eob := litCodes.value[256];
    var table := litCodeColumn + litBitColumn + distCodeColumn + distBitColumn;
    return Planned(DynamicHuffmanPlan(table, padded, |padded|, headerBits, eob.code, eob.bits)), h, lit, dist, deep;
  }

  /** Why there is no plan for some frequencies: the optimal tree of one of the three codes is too deep. */
  ghost predicate HasDeepTree(error: PlanError, litlenFreq: seq<nat>, distFreq: seq<nat>) {
    exists freq: seq<nat>, tree: Tree :: BestTree(tree, freq) &&
      match error
      case BadTableSize => false
      case NoLitlenLengths => OneMoreEnd(litlenFreq, freq) && TooDeep(tree, MAX_BITS)
      case NoDistLengths => OneForNone(distFreq, freq) && TooDeep(tree, MAX_BITS)
      case NoCodelenLengths => RunsOfPlan(litlenFreq, distFreq, freq) && TooDeep(tree, CODELEN_MAX_BITS)
  }

  /** The frequencies of the runs in which two shortest codes are written. */
  ghost predicate RunsOfPlan(litlenFreq: seq<nat>, distFreq: seq<nat>, freq: seq<nat>) {
    exists lit: seq<nat>, dist: seq<nat> ::
      && ServesLiterals(litlenFreq, lit) && Shortest(WithEndOfBlock(litlenFreq), lit)
      && ServesDistances(distFreq, dist) && Shortest(SomeUsed(distFreq), dist) && CountsRuns(freq, lit, dist)
  }

  lemma CarriesOk(h: Header, lit: seq<nat>, dist: seq<nat>)
    requires Carries(h, lit, dist)
    ensures h.Ok() && |h.codelen| == 19
  {
  }

  lemma ServesSizes(litFreq: seq<nat>, distFreq: seq<nat>, lit: seq<nat>, dist: seq<nat>)
    requires ServesLiterals(litFreq, lit) && ServesDistances(distFreq, dist)
    ensures |lit| == LITLEN_SYMBOL_COUNT && |dist| == DIST_SYMBOL_COUNT && lit[256] > 0
  {
  }
}
