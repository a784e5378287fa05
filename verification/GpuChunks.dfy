/** The whole GPU compressor: what it returns for a chunk is a DEFLATE stream of the chunk, ends where it says, and has
    clear padding bits, in the fixed codes as in planned ones. */
module GpuChunks {
  import opened Options
  import opened Bits
  import opened Format
  import opened Canonical
  import opened HuffmanEncoder
  import opened DynamicBlock
  import opened CodeTables
  import opened Totals
  import opened GpuScan
  import opened GpuTokens
  import opened GpuPack
  import opened GpuCoder
  import opened GpuSizes
  import Join
  import O = Octets
  import Plan = DynamicPlan
  import DynamicHeader
  import PlanSizes
  import CodeLengths
  import HuffmanLengths
  import ReadBack

  // ---- Words and octets --------------------------------------------------------------------------

  /** Little-endian octets carry the bits of the number. */
  lemma {:induction false} LeBits(v: nat, n: nat)
    ensures OctetBits(O.Le(v, n)) == NatBits(v, 8 * n)
    decreases n
  {
    hide NatBits, OctetBits;
    if n == 0 {
      NoOctets(v);
    } else {
      var o := v % 256;
      LeBits(v / 256, n - 1);
      NatBitsSplit(v, 8 * n);
      OctetBitsAppend([], o);
      NoOctets(0);
      assert [] + [o] == [o];
      Plan.OctetBitsConcat([o], O.Le(v / 256, n - 1));
    }
  }

  lemma NoOctets(v: nat)
    ensures OctetBits([]) == [] && NatBits(v, 0) == []
  {
  }

  function OctetsOf(words: seq<nat>): (o: seq<O.Octet>)
    ensures |o| == 4 * |words|
  {
    if words == [] then [] else OctetsOf(words[..|words| - 1]) + O.Le(words[|words| - 1], 4)
  }

  lemma {:induction false} OctetsOfBits(words: seq<nat>)
    ensures OctetBits(OctetsOf(words)) == WordBits(words)
  {
    hide NatBits, OctetBits, O.Le;
    if words == [] {
      NoOctets(0);
    } else {
      var n := |words| - 1;
      OctetsOfBits(words[..n]);
      LeBits(words[n], 4);
      Plan.OctetBitsConcat(OctetsOf(words[..n]), O.Le(words[n], 4));
    }
  }

  /** The words that hold some octets. */
  function WordsOf(octets: seq<O.Octet>): (words: seq<nat>)
    requires |octets| % 4 == 0
    ensures |words| == |octets| / 4
  {
    if octets == [] then []
    else
      var n := |octets| - 4;
      WordsOf(octets[..n]) + [O.FromLe(octets[n..])]
  }

  lemma {:induction false} WordsOfBits(octets: seq<O.Octet>)
    requires |octets| % 4 == 0
    ensures WordBits(WordsOf(octets)) == OctetBits(octets)
    decreases |octets|
  {
    hide NatBits, OctetBits, O.Le, O.FromLe;
    if octets == [] {
      NoOctets(0);
    } else {
      var n := |octets| - 4;
      WordsOfBits(octets[..n]);
      O.LeOfFromLe(octets[n..]);
      LeBits(O.FromLe(octets[n..]), 4);
      Plan.OctetBitsConcat(octets[..n], octets[n..]);
      assert octets[..n] + octets[n..] == octets;
      LastWord(WordsOf(octets[..n]), O.FromLe(octets[n..]));
    }
  }

  lemma LastWord(words: seq<nat>, w: nat)
    ensures WordBits(words + [w]) == WordBits(words) + NatBits(w, 32)
  {
    hide NatBits;
    assert (words + [w])[..|words|] == words;
  }

  lemma {:induction false} ZeroWords(n: nat)
    ensures WordBits(Repeat(0, n)) == Zeros(32 * n)
  {
    hide NatBits;
    if n > 0 {
      ZeroWords(n - 1);
      NatBitsOfZero(32);
      assert Repeat(0, n)[..n - 1] == Repeat(0, n - 1);
    }
  }

  lemma {:induction false} WordBitsConcat(a: seq<nat>, b: seq<nat>)
    ensures WordBits(a + b) == WordBits(a) + WordBits(b)
    decreases |b|
  {
    hide NatBits;
    if b == [] {
      assert a + b == a;
    } else {
      var init := b[..|b| - 1];
      WordBitsConcat(a, init);
      assert (a + b)[..|a + b| - 1] == a + init;
    }
  }

  /** The octets up to the last bit. */
  method ReadBackBytes(words: seq<nat>, totalBits: nat) returns (bytes: seq<Byte>)
    requires ByteCount(totalBits) <= 4 * |words|
    ensures BitsOf(bytes) == WordBits(words)[..8 * ByteCount(totalBits)] && |bytes| == ByteCount(totalBits)
  {
    hide WordBits, OctetBits, BitsOf, NatBits, OctetsOf;
    var octets := OctetsOf(words);
    var totalBytes := ByteCount(totalBits);
    OctetsOfBits(words);
    FirstOctets(octets, totalBytes);
    bytes := O.ToBytes(octets[..totalBytes]);
  }

  lemma FirstOctets(octets: seq<O.Octet>, n: nat)
    requires n <= |octets|
    ensures BitsOf(O.ToBytes(octets[..n])) == OctetBits(octets)[..8 * n]
  {
    hide OctetBits, BitsOf;
    var kept := octets[..n];
    Plan.OctetBitsConcat(kept, octets[n..]);
    assert kept + octets[n..] == octets;
    ReadBack.OctetsAreBytes(kept);
  }

  // ---- Right chunks ------------------------------------------------------------------------------

  /** What the compressor returns for a chunk; the final block starts with the first bit. */
  datatype GpuChunk = GpuChunk(compressed: seq<Byte>, endBit: nat)

  function ChunkOf(g: GpuChunk, rawLen: nat): Join.Chunk {
    Join.Chunk(g.compressed, Layout(0, g.endBit), rawLen, true)
  }

  /** The chunk is one that the writer may be given, and it decompresses to the data. */
  ghost predicate Right(g: GpuChunk, data: seq<nat>) {
    Join.Sound(ChunkOf(g, |data|)) && Join.Content(ChunkOf(g, |data|)) == data
  }

  lemma RightFromBits(g: GpuChunk, data: seq<nat>, start: Bits)
    requires |start| == g.endBit && BitsOf(g.compressed) == start + Zeros(PadTo8(|start|))
    requires Inflate(BitsOf(g.compressed)) == Some(Inflated(data, Layout(0, g.endBit)))
    ensures Right(g, data)
  {
    hide Inflate;
    var s := BitsOf(g.compressed);
    forall i | g.endBit <= i < 8 * ByteCount(g.endBit)
      ensures !BitAt(g.compressed, i)
    {
      BitsOfAt(g.compressed, i);
      assert s[i] == Zeros(PadTo8(|start|))[i - |start|];
    }
  }

  /** Cutting zeros off to whole octets. */
  lemma CutToOctets(s: Bits, start: Bits, n: nat)
    requires s == start + Zeros(n) && 8 * ByteCount(|start|) <= |s|
    ensures s[..8 * ByteCount(|start|)] == start + Zeros(PadTo8(|start|))
  {
  }

  /** The end-of-block code of the fixed codes is seven zeros. */
  lemma FixedEnd()
    ensures |FixedTrees().lit| > 256 && SymbolBits(FixedTrees().lit, 256) == Zeros(7)
  {
    hide SymbolBits, FixedTrees, Pow2;
    FixedLiteralCodes(256);
    forall j | 0 <= j < 7
      ensures !SymbolBits(FixedTrees().lit, 256)[j]
    {
      Pow2Of0(6 - j);
      assert 0 / Pow2(6 - j) == 0;
    }
  }

  /** The header of a final block in the fixed codes, as a word. */
  lemma HeaderWord()
    ensures NatBits(3, 32) == [true, true, false] + Zeros(29)
  {
    assert NatBits(3, 2) == [true, true] by {
      assert NatBits(1, 1) == [true] + NatBits(0, 0);
    }
    assert Pow2(2) == 4 by {
      assert Pow2(1) == 2;
    }
    hide NatBits, Pow2;
    HighBitsZero(3, 2, 30);
    assert Zeros(30) == [false] + Zeros(29);
  }

  lemma {:induction false} HeaderThenZeros(n: nat)
    requires n >= 1
    ensures WordBits([3] + Repeat(0, n - 1)) == [true, true, false] + Zeros(32 * n - 3)
  {
    hide NatBits;
    WordBitsConcat([3], Repeat(0, n - 1));
    ZeroWords(n - 1);
    HeaderWord();
    LastWord([], 3);
    assert [] + [3] == [3];
    assert Zeros(29) + Zeros(32 * (n - 1)) == Zeros(32 * n - 3);
  }

  /** Every thread runs, in some order. */
  predicate AllThreads(order: seq<nat>, n: nat) {
    (forall k :: 0 <= k < |order| ==> order[k] < n) && forall i :: 0 <= i < n ==> i in order
  }

  // ---- The empty chunk ---------------------------------------------------------------------------

  lemma EmptyBits()
    ensures BitsOf([3, 0]) == [true, true, false] + Zeros(13)
  {
  }

  method EmptyChunk() returns (g: GpuChunk)
    ensures Right(g, [])
  {
    hide BitsOf, Inflate, LayoutFrom, FixedTrees, SymbolBits;
    g := GpuChunk([0x03, 0x00], 10);
    FixedEnd();
    EmptyBits();
    FixedStreamMeans([], Zeros(6));
    ghost var start := [true, true, false] + Zeros(7);
    assert BitsOf(g.compressed) == start + Zeros(6);
    RightFromBits(g, [], start);
  }

  // ---- The fixed codes ---------------------------------------------------------------------------

  /** What the packed words of the fixed coder mean. */
  lemma FixedWordsMean(tokens: seq<Token>, ws: seq<Coded>, data: seq<nat>, tail: Bits)
    requires CodesOf(tokens, ws) && Expand(tokens, []) == Some(data)
    requires AllHaveCodes(ws, FixedTrees().lit, FixedTrees().dist)
    ensures var start := [true, true, false] + TokenRow(ws, FixedTrees().lit, FixedTrees().dist) + Zeros(7);
            Inflate(start + tail) == Some(Inflated(data, Layout(0, |start|)))
  {
    hide Inflate, FixedTrees, SymbolBits, TokenRow, CodesOf, AllHaveCodes, PayloadBits, Expand, LayoutFrom, Writable;
    CodesAreTokens(tokens, ws);
    FixedEnd();
    FixedStreamMeans(ws, tail);
    PayloadIsRow(ws, FixedTrees().lit, FixedTrees().dist);
    var row := TokenRow(ws, FixedTrees().lit, FixedTrees().dist);
    assert [true, true, false] + (row + Zeros(7)) == [true, true, false] + row + Zeros(7);
  }

  /** Compression in the fixed codes: none when the output does not fit its buffer, and then the CPU compresses the
      chunk; otherwise a right chunk, whatever the segments, the mode and the order of the threads are. */
  method FixedChunk(data: seq<nat>, segSize: nat, mode: Mode, capacity: nat, order: seq<nat>)
    returns (r: Option<GpuChunk>)
    requires GpuTokens.Octets(data) && segSize >= 1 && AllThreads(order, |data|)
    ensures r.Some? ==> Right(r.value, data)
    ensures data == [] || 32 * capacity >= 12 * |data| + 2048 ==> r.Some?
  {
    hide Inflate, FixedTrees, TokenRow, CodesOf, AllHaveCodes, Expand, Tiles, Chosen, BitsOf, WordBits, Row, Total;
    hide Field.Ok, GpuPack.FieldsOk, Right;
    if data == [] {
      var g := EmptyChunk();
      return Some(g);
    }
    var slots := ChooseTokens(data, segSize, mode);
    TilesCodable(data, slots[..], 0);
    var fields, ws := FixedFields(slots[..]);
    var _, literalBits := PrefixScan(Lengths(fields));
    RowTotal(fields);
    FixedRowSmall(Chosen(slots[..], 0), ws, data);
    // the packing of an output that does not fit is discarded
    var totalBits := literalBits + 10;
    if ByteCount(totalBits) > 4 * capacity {
      return None;
    }
    var words := new nat[capacity](_ => 0);
    words[0] := 3;
    HeaderThenZeros(capacity);
    assert words[..] == [3] + Repeat(0, capacity - 1);
    ghost var before := WordBits(words[..]);
    var _ := Pack(words, 3, fields, order);
    ghost var row := Row(fields);
    ghost var start := [true, true, false] + row + Zeros(7);
    assert before[..3] == [true, true, false];
    assert WordBits(words[..]) == start + Zeros(32 * capacity - |start|);
    CutToOctets(WordBits(words[..]), start, 32 * capacity - |start|);
    var bytes := ReadBackBytes(words[..], totalBits);
    FixedWordsMean(Chosen(slots[..], 0), ws, data, Zeros(PadTo8(|start|)));
    RightFromBits(GpuChunk(bytes, totalBits), data, start);
    return Some(GpuChunk(bytes, totalBits));
  }

  lemma RowTotal(fields: seq<Field>)
    requires GpuPack.FieldsOk(fields)
    ensures Total(Lengths(fields)) == |Row(fields)|
  {
    hide Field.Ok, Row, Total;
    RowLength(fields, |fields|);
    assert fields[..|fields|] == fields && Lengths(fields)[..|fields|] == Lengths(fields);
  }

  // ---- Planned codes -----------------------------------------------------------------------------

  datatype DynamicResult = Compressed(chunk: GpuChunk) | Fallback | NoPlan(error: Plan.PlanError) | HeaderTooLarge

  /** What the packed words of the planned coder mean. */
  lemma PlannedWordsMean(
    plan: Plan.DynamicHuffmanPlan, h: DynamicHeader.Header, litlenFreq: seq<nat>, distFreq: seq<nat>, lit: seq<nat>,
    dist: seq<nat>, tokens: seq<Token>, ws: seq<Coded>, data: seq<nat>, tail: Bits)
    requires Plan.Carries(h, lit, dist) && Plan.Holds(plan, h, lit, dist)
    requires Plan.ServesLiterals(litlenFreq, lit) && Plan.ServesDistances(distFreq, dist)
    requires Counted(ws, litlenFreq, distFreq) && CodesOf(tokens, ws) && Expand(tokens, []) == Some(data)
    requires |lit| > 256
    ensures AllHaveCodes(ws, lit, dist) && plan.headerBits <= |OctetBits(plan.headerBytesPadded)|
    ensures var start := OctetBits(plan.headerBytesPadded)[..plan.headerBits]
                         + TokenRow(ws, lit, dist) + SymbolBits(lit, 256);
            Inflate(start + tail) == Some(Inflated(data, Layout(0, |start|)))
  {
    hide Inflate, SymbolBits, TokenRow, CodesOf, AllHaveCodes, PayloadBits, Expand, Writable, Plan.Carries, ReadBlock;
    hide Plan.ServesLiterals, Plan.ServesDistances, Counted, OctetBits, Plan.Holds, EntryOf, InRange, TokenOf, Tokens;
    CodesAreTokens(tokens, ws);
    PlannedBlockReadsBack(plan, h, litlenFreq, distFreq, lit, dist, ws, tail);
    PayloadIsRow(ws, lit, dist);
    var header, row, end := OctetBits(plan.headerBytesPadded)[..plan.headerBits], TokenRow(ws, lit, dist),
        SymbolBits(lit, 256);
    var start := header + row + end;
    assert header + ((row + end) + tail) == start + tail;
    OneFinalBlock(start + tail, tokens, |start|, data);
  }

  lemma OneFinalBlock(s: Bits, tokens: seq<Token>, end: nat, data: seq<nat>)
    requires ReadBlock(s, 0) == Ok(Block(true, tokens), end) && Expand(tokens, []) == Some(data)
    ensures Inflate(s) == Some(Inflated(data, Layout(0, end)))
  {
    hide ReadBlock, Expand;
  }

  lemma PlanFacts(plan: Plan.DynamicHuffmanPlan, h: DynamicHeader.Header, lit: seq<nat>, dist: seq<nat>)
    requires Plan.Carries(h, lit, dist) && Plan.Holds(plan, h, lit, dist)
    ensures TableOf(plan.dynTable, lit, dist) && Kraft(lit, 15)
    ensures plan.headerBits <= 8 * |plan.headerBytesPadded| && |plan.headerBytesPadded| % 4 == 0
    ensures AllOctets(plan.headerBytesPadded) && |lit| > 256 && lit[256] > 0
    ensures plan.eobCode == EntryOf(lit, 256).code && plan.eobBits == lit[256]
    ensures forall k :: plan.headerBits <= k < 8 * |plan.headerBytesPadded| ==> !OctetBits(plan.headerBytesPadded)[k]
  {
    hide OctetBits, Kraft, Plan.CodeColumn, DynamicHeader.Header.Written, DynamicHeader.Header.Ok;
    var b := OctetBits(plan.headerBytesPadded);
    forall k | plan.headerBits <= k < |b|
      ensures !b[k]
    {
      assert b[k] == Zeros(8 * plan.headerCopySize - plan.headerBits)[k - plan.headerBits];
    }
  }

  /** The words with the header at their start. */
  lemma HeaderWords(octets: seq<nat>, capacity: nat)
    requires AllOctets(octets) && |octets| % 4 == 0 && |octets| <= 4 * capacity
    ensures WordBits(WordsOf(octets) + Repeat(0, capacity - |octets| / 4))
            == OctetBits(octets) + Zeros(32 * capacity - 8 * |octets|)
  {
    hide WordBits, OctetBits, WordsOf;
    WordBitsConcat(WordsOf(octets), Repeat(0, capacity - |octets| / 4));
    WordsOfBits(octets);
    ZeroWords(capacity - |octets| / 4);
  }

  /** The data has tokens for whose frequencies one of the three codes of a plan would be too long. */
  ghost predicate NoPlanFor(data: seq<nat>, error: Plan.PlanError) {
    exists ws: seq<Coded>, litlenFreq: seq<nat>, distFreq: seq<nat> ::
      && CountsUses(litlenFreq, distFreq, ws) && TokensGive(ws, data)
      && Plan.HasDeepTree(error, litlenFreq, distFreq)
  }

  ghost predicate TokensGive(ws: seq<Coded>, data: seq<nat>) {
    (forall i :: 0 <= i < |ws| ==> InRange(ws[i])) && Expand(Tokens(ws), []) == Some(data)
  }

  lemma PlanSmall(plan: Plan.DynamicHuffmanPlan, h: DynamicHeader.Header, lit: seq<nat>, dist: seq<nat>)
    requires Plan.Carries(h, lit, dist) && Plan.Lean(h, lit, dist) && Plan.Holds(plan, h, lit, dist)
    ensures |lit| == 286 && |dist| == 30
    ensures plan.headerBits <= 1654 && 8 * |plan.headerBytesPadded| <= 2048 && plan.eobBits == lit[256]
  {
    hide OctetBits, Kraft, Plan.CodeColumn, DynamicHeader.Header.Written, DynamicHeader.Header.Ok, Plan.Lean;
    PlanSizes.HeaderSmall(h, lit, dist);
  }

  lemma Refusal(error: Plan.PlanError, tokens: seq<Token>, ws: seq<Coded>, litlenFreq: seq<nat>, distFreq: seq<nat>,
      data: seq<nat>, lit: seq<nat>, dist: seq<nat>, freq: seq<nat>, tree: CodeLengths.Tree)
    requires CodesOf(tokens, ws) && Expand(tokens, []) == Some(data) && CountsUses(litlenFreq, distFreq, ws)
    requires error != Plan.BadTableSize && HuffmanLengths.BestTree(tree, freq)
    requires error == Plan.NoLitlenLengths ==> Plan.OneMoreEnd(litlenFreq, freq) && HuffmanLengths.TooDeep(tree, 15)
    requires error == Plan.NoDistLengths ==> Plan.OneForNone(distFreq, freq) && HuffmanLengths.TooDeep(tree, 15)
    requires error == Plan.NoCodelenLengths ==>
               Plan.RunsOfPlan(litlenFreq, distFreq, freq) && HuffmanLengths.TooDeep(tree, 7)
    ensures NoPlanFor(data, error)
  {
    CodesAreTokens(tokens, ws);
  }

  /** Compression in planned codes: the frequencies of the chosen tokens are counted, a plan is made for them, and the
      header, the tokens and the end of the block are packed. */
  method DynamicChunk(data: seq<nat>, segSize: nat, mode: Mode, capacity: nat, order: seq<nat>)
    returns (r: DynamicResult)
    requires GpuTokens.Octets(data) && segSize >= 1 && AllThreads(order, |data|)
    ensures r.Compressed? ==> Right(r.chunk, data)
    ensures data == [] ==> r.Compressed?
    ensures r.NoPlan? ==> NoPlanFor(data, r.error)
    ensures 32 * capacity >= 12 * |data| + 2048 && |data| < CodeLengths.U32_MAX ==> r.Compressed? || r.NoPlan?
  {
    hide Inflate, TokenRow, CodesOf, AllHaveCodes, Expand, Tiles, Chosen, BitsOf, WordBits, Row, Total, Kraft;
    hide Field.Ok, GpuPack.FieldsOk, Right, Counted, OctetBits, EntryOf, Plan.Carries, Plan.Holds, TableOf;
    hide Plan.ServesLiterals, Plan.ServesDistances, DynamicHeader.Shortest, Plan.WithEndOfBlock, Plan.SomeUsed;
    if data == [] {
      var g := EmptyChunk();
      return Compressed(g);
    }
    var slots := ChooseTokens(data, segSize, mode);
    TilesCodable(data, slots[..], 0);
    var litlenFreq, distFreq, ws := CountTokens(slots[..]);
    var planned, h, lit, dist, deep := Plan.BuildDynamicHuffmanPlan(litlenFreq, distFreq);
    if planned.Refused? {
      Refusal(planned.error, Chosen(slots[..], 0), ws, litlenFreq, distFreq, data, lit, dist, deep.0, deep.1);
      return NoPlan(planned.error);
    }
    var plan := planned.plan;
    PlanFacts(plan, h, lit, dist);
    PlanSmall(plan, h, lit, dist);
    if |plan.headerBytesPadded| > 4 * capacity {
      return HeaderTooLarge;
    }
    PlannedWordsMean(plan, h, litlenFreq, distFreq, lit, dist, Chosen(slots[..], 0), ws, data, []);
    var fields := PlannedFields(slots[..], plan.dynTable, lit, dist, ws);
    var _, tokenBits := PrefixScan(Lengths(fields));
    RowTotal(fields);
    if |data| < CodeLengths.U32_MAX {
      PlannedRowSmall(Chosen(slots[..], 0), ws, litlenFreq, distFreq, lit, dist, data);
    }
    var totalBits := plan.headerBits + tokenBits + plan.eobBits;
    if ByteCount(totalBits) > 4 * capacity {
      return Fallback;
    }
    ghost var header := OctetBits(plan.headerBytesPadded);
    var words := PackPlanned(plan, capacity, fields, order, lit);
    ghost var start := header[..plan.headerBits] + Row(fields) + SymbolBits(lit, 256);
    CutToOctets(WordBits(words), start, 32 * capacity - |start|);
    var bytes := ReadBackBytes(words, totalBits);
    PlannedWordsMean(plan, h, litlenFreq, distFreq, lit, dist, Chosen(slots[..], 0), ws, data, Zeros(PadTo8(|start|)));
    RightFromBits(GpuChunk(bytes, totalBits), data, start);
    return Compressed(GpuChunk(bytes, totalBits));
  }

  /** Header, tokens and end of the block in the output words. */
  method PackPlanned(plan: Plan.DynamicHuffmanPlan, capacity: nat, fields: seq<Field>, order: seq<nat>,
      ghost lit: seq<nat>) returns (out: seq<nat>)
    requires GpuPack.FieldsOk(fields) && AllThreads(order, |fields|)
    requires AllOctets(plan.headerBytesPadded) && |plan.headerBytesPadded| % 4 == 0
    requires plan.headerBits <= 8 * |plan.headerBytesPadded| <= 32 * capacity
    requires forall k :: plan.headerBits <= k < 8 * |plan.headerBytesPadded| ==> !OctetBits(plan.headerBytesPadded)[k]
    requires Kraft(lit, 15) && |lit| > 256 && lit[256] > 0
    requires plan.eobCode == EntryOf(lit, 256).code && plan.eobBits == lit[256]
    requires plan.headerBits + |Row(fields)| + plan.eobBits <= 32 * capacity
    ensures |out| == capacity
    ensures var start := OctetBits(plan.headerBytesPadded)[..plan.headerBits] + Row(fields) + SymbolBits(lit, 256);
            |start| <= 32 * capacity && WordBits(out) == start + Zeros(32 * capacity - |start|)
  {
    hide OctetBits, WordBits, NatBits, Row, Field.Ok, GpuPack.FieldsOk, EntryOf, Kraft, SymbolBits, Combined;
    var octets := plan.headerBytesPadded;
    var words := new nat[capacity](_ => 0);
    var copied: seq<nat> := WordsOf(octets);
    for i := 0 to |copied|
      invariant forall k :: 0 <= k < capacity ==> words[k] == if k < i then copied[k] else 0
    {
      words[i] := copied[i];
    }
    HeaderWords(octets, capacity);
    assert words[..] == copied + Repeat(0, capacity - |octets| / 4);
    ghost var before := WordBits(words[..]);
    BehindHeader(before, OctetBits(octets), plan.headerBits);
    var tokenBits := Pack(words, plan.headerBits, fields, order);
    ghost var packed := WordBits(words[..]);
    EntryWrites(lit, 256);
    PackCode(words, plan.headerBits + tokenBits, plan.eobCode, plan.eobBits);
    EndAdded(packed, WordBits(words[..]), OctetBits(octets)[..plan.headerBits] + Row(fields), SymbolBits(lit, 256));
    out := words[..];
  }

  lemma BehindHeader(before: Bits, header: Bits, n: nat)
    requires n <= |header| <= |before| && before == header + Zeros(|before| - |header|)
    requires forall k :: n <= k < |header| ==> !header[k]
    ensures before[..n] == header[..n] && forall k :: n <= k < |before| ==> !before[k]
  {
    forall k | n <= k < |before|
      ensures !before[k]
    {
      if k >= |header| {
        assert before[k] == Zeros(|before| - |header|)[k - |header|];
      }
    }
  }

  lemma EndAdded(packed: Bits, after: Bits, start: Bits, end: Bits)
    requires |start| + |end| <= |packed| && packed == start + Zeros(|packed| - |start|)
    requires Combined(packed, after, |start|, end)
    ensures after == start + end + Zeros(|packed| - |start| - |end|)
  {
    var r := start + end + Zeros(|packed| - |start| - |end|);
    forall k | 0 <= k < |packed|
      ensures after[k] == r[k]
    {
      if k >= |start| {
        assert packed[k] == Zeros(|packed| - |start|)[k - |start|];
      } else {
        assert packed[k] == start[k];
      }
    }
  }
}
