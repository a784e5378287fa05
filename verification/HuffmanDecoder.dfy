/** The decoder tables of a canonical Huffman code and the symbol reader that uses them. */
module HuffmanDecoder {
  import opened Bits
  import opened Format
  import opened Cursor

  datatype HuffmanDecoder = HuffmanDecoder(counts: seq<nat>, symbols: seq<nat>, maxBits: nat)

  /** Where the symbols of code length `b` start in the symbol table. */
  function Offset(lengths: seq<nat>, b: nat): nat {
    if b <= 1 then 0 else Offset(lengths, b - 1) + Count(lengths, b - 1)
  }

  predicate CountsRight(counts: seq<nat>, lengths: seq<nat>) {
    && |counts| == MAX_HUFF_BITS + 1 && counts[0] == 0
    && forall b :: 1 <= b <= MAX_HUFF_BITS ==> counts[b] == Count(lengths, b)
  }

  /** The first `i` symbols are in their places. */
  ghost predicate Placed(symbols: seq<nat>, lengths: seq<nat>, i: nat)
    requires i <= |lengths|
  {
    forall b, r: nat :: PlacedAt(symbols, lengths, lengths[..i], b, r)
  }

  /** The `r`-th symbol of code length `b` among the first symbols `pre` is in its place. */
  predicate PlacedAt(symbols: seq<nat>, lengths: seq<nat>, pre: seq<nat>, b: nat, r: nat) {
    1 <= b <= MAX_HUFF_BITS && r < Count(pre, b) ==>
      Offset(lengths, b) + r < |symbols| && symbols[Offset(lengths, b) + r] == Nth(pre, b, r)
  }

  /** The tables describe the code with the given lengths. */
  ghost predicate Represents(d: HuffmanDecoder, lengths: seq<nat>) {
    && Decodable(lengths)
    && CountsRight(d.counts, lengths)
    && Placed(d.symbols, lengths, |lengths|)
    && d.maxBits == MaxLen(lengths)
  }

  lemma {:induction false} CountMonotone(lengths: seq<nat>, i: nat, b: nat)
    requires i <= |lengths|
    ensures Count(lengths[..i], b) <= Count(lengths, b) <= |lengths|
  {
    if lengths == [] {
    } else if i == |lengths| {
      assert lengths[..i] == lengths;
      CountMonotone(lengths[..i - 1], i - 1, b);
    } else {
      CountMonotone(lengths[..|lengths| - 1], i, b);
      assert lengths[..|lengths| - 1][..i] == lengths[..i];
    }
  }

  lemma {:induction false} OffsetMonotone(lengths: seq<nat>, b: nat, c: nat)
    requires 1 <= b < c
    ensures Offset(lengths, b) + Count(lengths, b) <= Offset(lengths, c)
  {
    if b + 1 < c {
      OffsetMonotone(lengths, b, c - 1);
    }
  }

  lemma {:induction false} MaxLenBound(lengths: seq<nat>)
    ensures forall i :: 0 <= i < |lengths| ==> lengths[i] <= MaxLen(lengths)
    ensures Decodable(lengths) ==> MaxLen(lengths) <= MAX_HUFF_BITS
  {
    if lengths != [] {
      MaxLenBound(lengths[..|lengths| - 1]);
    }
  }

  /** Entering the next symbol keeps the earlier ones in their places. */
  lemma PlaceStep(symbols: seq<nat>, lengths: seq<nat>, i: nat, slot: nat)
    requires i < |lengths| && Decodable(lengths) && Placed(symbols, lengths, i)
    requires lengths[i] >= 1 && slot == Offset(lengths, lengths[i]) + Count(lengths[..i], lengths[i]) < |symbols|
    ensures Placed(symbols[slot := i], lengths, i + 1)
  {
    var pre, next, updated := lengths[..i], lengths[..i + 1], symbols[slot := i];
    assert next[..|next| - 1] == pre;
    forall b, r: nat | 1 <= b <= MAX_HUFF_BITS && r < Count(next, b)
      ensures PlacedAt(updated, lengths, next, b, r)
    {
      assert PlacedAt(symbols, lengths, pre, b, r);
      CountMonotone(lengths, i, b);
      CountMonotone(lengths, i + 1, lengths[i]);
      if b < lengths[i] {
        OffsetMonotone(lengths, b, lengths[i]);
      } else if lengths[i] < b {
        OffsetMonotone(lengths, lengths[i], b);
      }
    }
  }

  lemma SkipStep(symbols: seq<nat>, lengths: seq<nat>, i: nat)
    requires i < |lengths| && lengths[i] == 0 && Placed(symbols, lengths, i)
    ensures Placed(symbols, lengths, i + 1)
  {
    var pre, next := lengths[..i], lengths[..i + 1];
    assert next[..|next| - 1] == pre;
    forall b, r: nat | 1 <= b <= MAX_HUFF_BITS && r < Count(next, b)
      ensures PlacedAt(symbols, lengths, next, b, r)
    {
      assert PlacedAt(symbols, lengths, pre, b, r);
    }
  }

  lemma CountPrefix(lengths: seq<nat>, i: nat, b: nat)
    requires i < |lengths|
    ensures Count(lengths[..i + 1], b) == Count(lengths[..i], b) + if lengths[i] == b then 1 else 0
  {
    assert lengths[..i + 1][..i] == lengths[..i];
  }

  method CountLengths(lengths: seq<nat>) returns (r: Result<seq<nat>>)
    ensures if Decodable(lengths) then r.Success? && CountsRight(r.value, lengths) else r == Failure(BadCodeLength)
  {
    var counts := new nat[MAX_HUFF_BITS + 1](_ => 0);
    for i := 0 to |lengths|
      invariant Decodable(lengths[..i]) && counts[0] == 0
      invariant forall b :: 1 <= b <= MAX_HUFF_BITS ==> counts[b] == Count(lengths[..i], b)
    {
      var len := lengths[i];
      if len > MAX_HUFF_BITS {
        return Failure(BadCodeLength);
      }
      if len > 0 {
        counts[len] := counts[len] + 1;
      }
      forall b | 1 <= b <= MAX_HUFF_BITS
        ensures counts[b] == Count(lengths[..i + 1], b)
      {
        CountPrefix(lengths, i, b);
      }
    }
    assert lengths[..|lengths|] == lengths;
    return Success(counts[..]);
  }

  /** The offsets table together with the number of symbols that have a code. */
  method ComputeOffsets(counts: seq<nat>, ghost lengths: seq<nat>) returns (offsets: array<nat>, total: nat)
    requires CountsRight(counts, lengths)
    ensures fresh(offsets) && offsets.Length == MAX_HUFF_BITS + 1
    ensures forall b :: 1 <= b <= MAX_HUFF_BITS ==> offsets[b] == Offset(lengths, b)
    ensures total == Offset(lengths, MAX_HUFF_BITS + 1)
  {
    offsets := new nat[MAX_HUFF_BITS + 1](_ => 0);
    total := 0;
    for bits := 1 to MAX_HUFF_BITS + 1
      invariant total == Offset(lengths, bits)
    {
      total := total + counts[bits];
    }
    for bits := 1 to MAX_HUFF_BITS
      invariant forall b :: 1 <= b <= bits ==> offsets[b] == Offset(lengths, b)
    {
      offsets[bits + 1] := offsets[bits] + counts[bits];
    }
  }

  method BuildHuffmanDecoder(lengths: seq<nat>) returns (r: Result<HuffmanDecoder>)
    ensures if Decodable(lengths) then r.Success? && Represents(r.value, lengths) else r == Failure(BadCodeLength)
  {
    hide Nth;
    var counts :- CountLengths(lengths);
    var offsets, total := ComputeOffsets(counts, lengths);
    var symbols := new nat[total](_ => 0);
    var maxBits := 0;
    for symbol := 0 to |lengths|
      invariant forall b :: 1 <= b <= MAX_HUFF_BITS ==> offsets[b] == Offset(lengths, b) + Count(lengths[..symbol], b)
      invariant Placed(symbols[..], lengths, symbol) && maxBits == MaxLen(lengths[..symbol])
    {
      var len := lengths[symbol];
      assert lengths[..symbol + 1][..symbol] == lengths[..symbol];
      if len == 0 {
        SkipStep(symbols[..], lengths, symbol);
      } else {
        maxBits := if maxBits < len then len else maxBits;
        var slot := offsets[len];
        SlotInRange(lengths, symbol);
        PlaceStep(symbols[..], lengths, symbol, slot);
        ghost var before := symbols[..];
        symbols[slot] := symbol;
        assert symbols[..] == before[slot := symbol];
        offsets[len] := offsets[len] + 1;
      }
    }
    assert lengths[..|lengths|] == lengths;
    return Success(HuffmanDecoder(counts, symbols[..], maxBits));
  }

  /** The table never overflows. */
  lemma SlotInRange(lengths: seq<nat>, i: nat)
    requires i < |lengths| && 1 <= lengths[i] <= MAX_HUFF_BITS
    ensures Offset(lengths, lengths[i]) + Count(lengths[..i], lengths[i]) < Offset(lengths, MAX_HUFF_BITS + 1)
  {
    CountPrefix(lengths, i, lengths[i]);
    CountMonotone(lengths, i + 1, lengths[i]);
    OffsetMonotone(lengths, lengths[i], MAX_HUFF_BITS + 1);
  }

  method DecodeHuffmanSymbol(cursor: DeflateBitCursor, decoder: HuffmanDecoder, ghost lengths: seq<nat>)
    returns (r: Result<nat>)
    requires Represents(decoder, lengths)
    modifies cursor
    ensures Agrees(r, cursor.bitPos, DecodeSymbol(BitsOf(cursor.data), old(cursor.bitPos), lengths))
  {
    hide BitsOf, Nth, Count, Placed;
    ghost var s, p := BitsOf(cursor.data), cursor.bitPos;
    if decoder.maxBits == 0 {
      return Failure(EmptyTable);
    }
    MaxLenBound(lengths);
    var code: nat, first: nat, index: nat := 0, 0, 0;
    for len := 1 to decoder.maxBits + 1
      invariant index == Offset(lengths, len)
      invariant DecodeSymbol(s, p, lengths) == DecodeFrom(s, cursor.bitPos, lengths, len, code, first)
    {
      var bit :- cursor.ReadBit();
      code := code + if bit then 1 else 0;
      var count := decoder.counts[len];
      if code >= first && code - first < count {
        SymbolPlace(decoder, lengths, len, code - first);
        return Success(decoder.symbols[index + (code - first)]);
      }
      index := index + count;
      first := 2 * (first + count);
      code := 2 * code;
    }
    return Failure(NoSymbol);
  }

  lemma SymbolPlace(d: HuffmanDecoder, lengths: seq<nat>, b: nat, r: nat)
    requires Represents(d, lengths) && 1 <= b <= MAX_HUFF_BITS && r < Count(lengths, b)
    ensures Offset(lengths, b) + r < |d.symbols| && d.symbols[Offset(lengths, b) + r] == Nth(lengths, b, r)
  {
    assert lengths[..|lengths|] == lengths;
    assert PlacedAt(d.symbols, lengths, lengths[..|lengths|], b, r);
  }
}
