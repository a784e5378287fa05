/** A parse depends only on the bits it consumes, and moves with them by whole bytes. */
module Transport {
  import opened Bits
  import opened Format

  /** Bits `p..q` of `s` reappear in `t`, displaced by `d`. */
  predicate Same(s: Bits, t: Bits, d: int, p: nat, q: nat) {
    && p <= q <= |s|
    && 0 <= p + d && q + d <= |t|
    && forall j :: p <= j < q ==> s[j] == t[j + d]
  }

  lemma SameSlice(s: Bits, t: Bits, d: int, p: nat, q: nat)
    requires Same(s, t, d, p, q)
    ensures t[p + d..q + d] == s[p..q]
  {
    forall i | 0 <= i < q - p
      ensures t[p + d..q + d][i] == s[p..q][i]
    {
      assert s[p + i] == t[p + i + d];
    }
  }

  lemma MoveBits(s: Bits, t: Bits, d: int, p: nat, n: nat, q: nat)
    requires ReadBits(s, p, n).Ok? && p + n <= q && Same(s, t, d, p, q)
    ensures ReadBits(t, p + d, n) == Ok(ReadBits(s, p, n).value, p + n + d)
  {
    SameSlice(s, t, d, p, p + n);
  }

  lemma {:induction false} MoveDecodeFrom(
    s: Bits, t: Bits, d: int, p: nat, lengths: seq<nat>, len: nat, code: nat, first: nat)
    requires 1 <= len
    requires var r := DecodeFrom(s, p, lengths, len, code, first); r.Ok? && Same(s, t, d, p, r.next)
    ensures var r := DecodeFrom(s, p, lengths, len, code, first);
            DecodeFrom(t, p + d, lengths, len, code, first) == Ok(r.value, r.next + d)
    decreases MaxLen(lengths) + 1 - len
  {
    var c := code + if s[p] then 1 else 0;
    assert s[p] == t[p + d];
    var count := Count(lengths, len);
    if !(c >= first && c - first < count) {
      MoveDecodeFrom(s, t, d, p + 1, lengths, len + 1, 2 * c, 2 * (first + count));
    }
  }

  lemma MoveSymbol(s: Bits, t: Bits, d: int, p: nat, lengths: seq<nat>, q: nat)
    requires var r := DecodeSymbol(s, p, lengths); r.Ok? && r.next <= q && Same(s, t, d, p, q)
    ensures var r := DecodeSymbol(s, p, lengths); DecodeSymbol(t, p + d, lengths) == Ok(r.value, r.next + d)
  {
    MoveDecodeFrom(s, t, d, p, lengths, 1, 0, 0);
  }

  lemma {:induction false} MoveCodeLenLengths(
    s: Bits, t: Bits, d: int, p: nat, idx: nat, hclen: nat, acc: seq<nat>, q: nat)
    requires idx <= hclen <= 19 && |acc| == 19
    requires var r := ReadCodeLenLengths(s, p, idx, hclen, acc); r.Ok? && r.next <= q && Same(s, t, d, p, q)
    ensures var r := ReadCodeLenLengths(s, p, idx, hclen, acc);
            ReadCodeLenLengths(t, p + d, idx, hclen, acc) == Ok(r.value, r.next + d)
    decreases hclen - idx
  {
    if idx < hclen {
      MoveBits(s, t, d, p, 3, q);
      var v := ReadBits(s, p, 3).value;
      MoveCodeLenLengths(s, t, d, p + 3, idx + 1, hclen, acc[CODELEN_ORDER[idx] := v], q);
    }
  }

  lemma MoveRun(s: Bits, t: Bits, d: int, p: nat, sym: nat, acc: seq<nat>, q: nat)
    requires var r := RunOf(s, p, sym, acc); r.Ok? && r.next <= q && Same(s, t, d, p, q)
    ensures var r := RunOf(s, p, sym, acc); RunOf(t, p + d, sym, acc) == Ok(r.value, r.next + d)
  {
    if sym == 16 {
      MoveBits(s, t, d, p, 2, q);
    } else if sym == 17 {
      MoveBits(s, t, d, p, 3, q);
    } else if sym == 18 {
      MoveBits(s, t, d, p, 7, q);
    }
  }

  lemma {:induction false} MoveLengths(
    s: Bits, t: Bits, d: int, p: nat, codelen: seq<nat>, total: nat, acc: seq<nat>, q: nat)
    requires |acc| <= total
    requires var r := ReadLengths(s, p, codelen, total, acc); r.Ok? && r.next <= q && Same(s, t, d, p, q)
    ensures var r := ReadLengths(s, p, codelen, total, acc);
            ReadLengths(t, p + d, codelen, total, acc) == Ok(r.value, r.next + d)
    decreases total - |acc|
  {
    hide DecodeSymbol, RunOf;
    if |acc| < total {
      var sym := DecodeSymbol(s, p, codelen);
      var run := RunOf(s, sym.next, sym.value, acc);
      MoveLengths(s, t, d, run.next, codelen, total, acc + run.value, q);
      MoveSymbol(s, t, d, p, codelen, q);
      MoveRun(s, t, d, sym.next, sym.value, acc, q);
    }
  }

  lemma MoveTables(s: Bits, t: Bits, d: int, p: nat, hlit: nat, hdist: nat, hclen: nat, q: nat)
    requires hclen <= 19
    requires var r := ReadTables(s, p, hlit, hdist, hclen); r.Ok? && r.next <= q && Same(s, t, d, p, q)
    ensures var r := ReadTables(s, p, hlit, hdist, hclen);
            ReadTables(t, p + d, hlit, hdist, hclen) == Ok(r.value, r.next + d)
  {
    hide ReadCodeLenLengths, ReadLengths, Value, MaxLen;
    var codelen := ReadCodeLenLengths(s, p, 0, hclen, Repeat(0, 19));
    MoveCodeLenLengths(s, t, d, p, 0, hclen, Repeat(0, 19), q);
    MoveLengths(s, t, d, codelen.next, codelen.value, hlit + hdist, [], q);
  }

  lemma MoveTrees(s: Bits, t: Bits, d: int, p: nat, q: nat)
    requires var r := ReadDynamicTrees(s, p); r.Ok? && r.next <= q && Same(s, t, d, p, q)
    ensures var r := ReadDynamicTrees(s, p); ReadDynamicTrees(t, p + d) == Ok(r.value, r.next + d)
  {
    hide ReadTables, Value;
    MoveBits(s, t, d, p, 5, q);
    MoveBits(s, t, d, p + 5, 5, q);
    MoveBits(s, t, d, p + 10, 4, q);
    ValueBound(s[p + 10..p + 14]);
    MoveTables(s, t, d, p + 14, ReadBits(s, p, 5).value + 257, ReadBits(s, p + 5, 5).value + 1,
               ReadBits(s, p + 10, 4).value + 4, q);
  }

  lemma MoveMatch(s: Bits, t: Bits, d: int, p: nat, lenIndex: nat, dist: seq<nat>, q: nat)
    requires lenIndex < 29
    requires var r := ReadMatch(s, p, lenIndex, dist); r.Ok? && r.next <= q && Same(s, t, d, p, q)
    ensures var r := ReadMatch(s, p, lenIndex, dist); ReadMatch(t, p + d, lenIndex, dist) == Ok(r.value, r.next + d)
  {
    hide DecodeSymbol, Value;
    var extra := LENGTH_EXTRA_BITS[lenIndex];
    MoveBits(s, t, d, p, extra, q);
    var sym := DecodeSymbol(s, p + extra, dist);
    MoveSymbol(s, t, d, p + extra, dist, q);
    MoveBits(s, t, d, sym.next, DIST_EXTRA_BITS[sym.value], q);
  }

  lemma MoveItem(s: Bits, t: Bits, d: int, p: nat, trees: Trees, q: nat)
    requires var r := ReadItem(s, p, trees); r.Ok? && r.next <= q && Same(s, t, d, p, q)
    ensures var r := ReadItem(s, p, trees); ReadItem(t, p + d, trees) == Ok(r.value, r.next + d)
  {
    hide DecodeSymbol, ReadMatch;
    var sym := DecodeSymbol(s, p, trees.lit);
    MoveSymbol(s, t, d, p, trees.lit, q);
    if 257 <= sym.value {
      MoveMatch(s, t, d, sym.next, sym.value - 257, trees.dist, q);
    }
  }

  lemma {:induction false} MovePayload(s: Bits, t: Bits, d: int, p: nat, trees: Trees, q: nat)
    requires var r := ReadPayload(s, p, trees); r.Ok? && r.next <= q && Same(s, t, d, p, q)
    ensures var r := ReadPayload(s, p, trees); ReadPayload(t, p + d, trees) == Ok(r.value, r.next + d)
    decreases |s| - p
  {
    hide ReadItem;
    var item := ReadItem(s, p, trees);
    MoveItem(s, t, d, p, trees, q);
    if item.value.Item? {
      MovePayload(s, t, d, item.next, trees, q);
    }
  }

  lemma MoveStoredTokens(s: Bits, t: Bits, d: int, p: nat, len: nat)
    requires p + 8 * len <= |s| && Same(s, t, d, p, p + 8 * len)
    ensures StoredTokens(t, p + d, len) == StoredTokens(s, p, len)
  {
    forall i | 0 <= i < len
      ensures StoredTokens(t, p + d, len)[i] == StoredTokens(s, p, len)[i]
    {
      SameSlice(s, t, d, p + 8 * i, p + 8 * i + 8);
    }
  }

  lemma MoveAlign(p: nat, d: int)
    requires d % 8 == 0 && p + d >= 0
    ensures AlignToByte(p + d) == AlignToByte(p) + d
  {
  }

  lemma FieldEnds(s: Bits, p: nat)
    requires ReadBits(s, p, 16).Ok?
    ensures ReadBits(s, p, 16).next == p + 16 <= |s|
  {
    hide Value;
  }

  lemma MoveStored(s: Bits, t: Bits, d: int, p: nat, q: nat)
    requires d % 8 == 0
    requires var r := ReadStored(s, p); r.Ok? && r.next <= q && Same(s, t, d, p, q)
    ensures var r := ReadStored(s, p); ReadStored(t, p + d) == Ok(r.value, r.next + d)
  {
    hide StoredTokens, Value, ReadBits;
    var a := AlignToByte(p);
    MoveAlign(p, d);
    FieldEnds(s, a);
    FieldEnds(s, a + 16);
    MoveBits(s, t, d, a, 16, q);
    MoveBits(s, t, d, a + 16, 16, q);
    MoveStoredTokens(s, t, d, a + 32, ReadBits(s, a, 16).value);
  }

  lemma MoveBody(s: Bits, t: Bits, d: int, p: nat, btype: nat, q: nat)
    requires d % 8 == 0
    requires var r := ReadBody(s, p, btype); r.Ok? && r.next <= q && Same(s, t, d, p, q)
    ensures var r := ReadBody(s, p, btype); ReadBody(t, p + d, btype) == Ok(r.value, r.next + d)
  {
    hide ReadStored, ReadPayload, ReadDynamicTrees, FixedTrees;
    if btype == 0 {
      MoveStored(s, t, d, p, q);
    } else if btype == 1 {
      MovePayload(s, t, d, p, FixedTrees(), q);
    } else {
      var trees := ReadDynamicTrees(s, p);
      MovePayload(s, t, d, trees.next, trees.value, q);
      MoveTrees(s, t, d, p, q);
    }
  }

  /** A block keeps its meaning when its bits move by whole bytes, whatever becomes of its final flag. */
  lemma MoveBlock(s: Bits, t: Bits, d: int, p: nat, q: nat)
    requires d % 8 == 0 && 0 <= p + d
    requires var r := ReadBlock(s, p); r.Ok? && r.next <= q && Same(s, t, d, p + 1, q)
    ensures var r := ReadBlock(s, p);
            ReadBlock(t, p + d) == Ok(Block(t[p + d], r.value.tokens), r.next + d)
  {
    hide ReadBody, Value;
    MoveBits(s, t, d, p + 1, 2, q);
    MoveBody(s, t, d, p + 3, ReadBits(s, p + 1, 2).value, q);
  }

  /** The walker's answer depends on the bits before its end only, and moves with them. */
  lemma {:induction false} MoveLayout(s: Bits, t: Bits, d: int, p: nat)
    requires d % 8 == 0
    requires var r := LayoutFrom(s, p); r.Ok? && Same(s, t, d, p, r.next)
    ensures var l := LayoutFrom(s, p).value;
            LayoutFrom(t, p + d) == Ok(Layout(l.finalHeaderBit + d, l.endBit + d), l.endBit + d)
    decreases |s| - p
  {
    hide ReadBlock;
    var b := ReadBlock(s, p);
    MoveBlock(s, t, d, p, LayoutFrom(s, p).next);
    assert s[p] == t[p + d];
    if !b.value.final {
      MoveLayout(s, t, d, b.next);
    }
  }

  /** Decompression stops where the walker does. */
  lemma {:induction false} InflateLayout(s: Bits, p: nat, out: seq<nat>)
    requires InflateFrom(s, p, out).Some?
    ensures var l := InflateFrom(s, p, out).value.layout; LayoutFrom(s, p) == Ok(l, l.endBit)
    decreases |s| - p
  {
    var b := ReadBlock(s, p);
    if !b.value.final {
      InflateLayout(s, b.next, Expand(b.value.tokens, out).value);
    }
  }
}
