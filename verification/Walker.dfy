/** The chunk walker: it finds the final block header and the end of a DEFLATE stream without
    decompressing it. */
module Walker {
  import opened Bits
  import opened Format
  import opened Cursor
  import opened HuffmanDecoder

  /** Decoders for a pair of code tables. */
  datatype Decoders = Decoders(lit: HuffmanDecoder, dist: HuffmanDecoder)

  ghost predicate Represent(d: Decoders, trees: Trees) {
    Represents(d.lit, trees.lit) && Represents(d.dist, trees.dist)
  }

  lemma FixedTreesDecodable()
    ensures Decodable(FixedTrees().lit) && Decodable(FixedTrees().dist)
  {
  }

  method FixedHuffmanTrees() returns (r: Result<Decoders>)
    ensures r.Success? && Represent(r.value, FixedTrees())
  {
    hide Represents, Decodable;
    FixedTreesDecodable();
    var lit := BuildHuffmanDecoder(FixedTrees().lit);
    var dist := BuildHuffmanDecoder(FixedTrees().dist);
    return Success(Decoders(lit.value, dist.value));
  }

  method ReadCodeLenLengths(cursor: DeflateBitCursor, hclen: nat) returns (r: Result<seq<nat>>)
    requires hclen <= 19
    modifies cursor
    ensures Agrees(r, cursor.bitPos,
                   Format.ReadCodeLenLengths(BitsOf(cursor.data), old(cursor.bitPos), 0, hclen, Repeat(0, 19)))
    ensures r.Success? ==> |r.value| == 19 && forall i :: 0 <= i < 19 ==> r.value[i] < 8
  {
    hide BitsOf, Format.ReadBits;
    ghost var s, p := BitsOf(cursor.data), cursor.bitPos;
    var lengths := Repeat(0, 19);
    for idx := 0 to hclen
      invariant |lengths| == 19 && forall i :: 0 <= i < 19 ==> lengths[i] < 8
      invariant Format.ReadCodeLenLengths(s, p, 0, hclen, Repeat(0, 19)) ==
                Format.ReadCodeLenLengths(s, cursor.bitPos, idx, hclen, lengths)
    {
      ghost var at := cursor.bitPos;
      var value :- cursor.ReadBits(3);
      ReadBitsBound(s, at, 3);
      lengths := lengths[CODELEN_ORDER[idx] := value];
    }
    return Success(lengths);
  }

  lemma ReadBitsBound(s: Bits, p: nat, n: nat)
    requires Format.ReadBits(s, p, n).Ok?
    ensures Format.ReadBits(s, p, n).value < Pow2(n)
    ensures Format.ReadBits(s, p, n).next == p + n
    ensures Pow2(3) == 8 && Pow2(4) == 16
  {
    if n > 0 {
      ValueBound(s[p..p + n]);
    }
    assert Pow2(3) == 8 && Pow2(4) == 16;
  }

  /** Every length of a run-length coded table is a possible code length. */
  lemma {:induction false} LengthsDecodable(s: Bits, p: nat, codelen: seq<nat>, total: nat, acc: seq<nat>)
    requires |acc| <= total && Decodable(acc)
    requires Format.ReadLengths(s, p, codelen, total, acc).Ok?
    ensures Decodable(Format.ReadLengths(s, p, codelen, total, acc).value)
    decreases total - |acc|
  {
    hide DecodeSymbol;
    if |acc| < total {
      var sym := DecodeSymbol(s, p, codelen);
      var run := RunOf(s, sym.next, sym.value, acc);
      LengthsDecodable(s, run.next, codelen, total, acc + run.value);
    }
  }

  /** What one symbol of the code length alphabet adds to the table. */
  method ReadRun(cursor: DeflateBitCursor, sym: nat, acc: seq<nat>) returns (r: Result<seq<nat>>)
    modifies cursor
    ensures Agrees(r, cursor.bitPos, RunOf(BitsOf(cursor.data), old(cursor.bitPos), sym, acc))
  {
    hide BitsOf, Format.ReadBits;
    if sym <= 15 {
      return Success([sym]);
    } else if sym == 16 {
      if acc == [] {
        return Failure(RepeatWithoutPrevious);
      }
      var extra :- cursor.ReadBits(2);
      return Success(Repeat(acc[|acc| - 1], extra + 3));
    } else if sym == 17 {
      var extra :- cursor.ReadBits(3);
      return Success(Repeat(0, extra + 3));
    } else if sym == 18 {
      var extra :- cursor.ReadBits(7);
      return Success(Repeat(0, extra + 11));
    } else {
      return Failure(BadCodeLengthSymbol);
    }
  }

  method ReadLengths(cursor: DeflateBitCursor, decoder: HuffmanDecoder, ghost codelen: seq<nat>, total: nat)
    returns (r: Result<seq<nat>>)
    requires Represents(decoder, codelen)
    modifies cursor
    ensures Agrees(r, cursor.bitPos, Format.ReadLengths(BitsOf(cursor.data), old(cursor.bitPos), codelen, total, []))
  {
    hide BitsOf, RunOf, DecodeSymbol, Represents;
    ghost var s, p := BitsOf(cursor.data), cursor.bitPos;
    var lengths: seq<nat> := [];
    while |lengths| < total
      invariant |lengths| <= total
      invariant Format.ReadLengths(s, p, codelen, total, []) ==
                Format.ReadLengths(s, cursor.bitPos, codelen, total, lengths)
      decreases total - |lengths|
    {
      var sym :- DecodeHuffmanSymbol(cursor, decoder, codelen);
      var run :- ReadRun(cursor, sym, lengths);
      if |lengths + run| > total {
        return Failure(RunOverflow);
      }
      lengths := lengths + run;
    }
    return Success(lengths);
  }

  method ReadTables(cursor: DeflateBitCursor, hlit: nat, hdist: nat, hclen: nat)
    returns (r: Result<Decoders>, ghost trees: Trees)
    requires hclen <= 19
    modifies cursor
    ensures Agrees(if r.Success? then Success(trees) else Failure(r.error), cursor.bitPos,
                   Format.ReadTables(BitsOf(cursor.data), old(cursor.bitPos), hlit, hdist, hclen))
    ensures r.Success? ==> Represent(r.value, trees)
  {
    hide BitsOf, Format.ReadLengths, Format.ReadCodeLenLengths, Represents;
    trees := Trees([], []);
    ghost var s := BitsOf(cursor.data);
    var codelenLengths :- ReadCodeLenLengths(cursor, hclen);
    var codelenDecoder := BuildHuffmanDecoder(codelenLengths);
    ghost var at := cursor.bitPos;
    var lengths :- ReadLengths(cursor, codelenDecoder.value, codelenLengths, hlit + hdist);
    LengthsDecodable(s, at, codelenLengths, hlit + hdist, []);
    trees := Trees(lengths[..hlit], lengths[hlit..]);
    var lit := BuildHuffmanDecoder(lengths[..hlit]);
    var dist := BuildHuffmanDecoder(lengths[hlit..]);
    return Success(Decoders(lit.value, dist.value)), trees;
  }

  method ReadDynamicHuffmanTrees(cursor: DeflateBitCursor) returns (r: Result<Decoders>, ghost trees: Trees)
    modifies cursor
    ensures Agrees(if r.Success? then Success(trees) else Failure(r.error), cursor.bitPos,
                   ReadDynamicTrees(BitsOf(cursor.data), old(cursor.bitPos)))
    ensures r.Success? ==> Represent(r.value, trees)
  {
    hide BitsOf, Format.ReadTables, Represents, Value;
    trees := Trees([], []);
    ghost var s := BitsOf(cursor.data);
    var hlit :- cursor.ReadBits(5);
    var hdist :- cursor.ReadBits(5);
    ghost var at := cursor.bitPos;
    var hclen :- cursor.ReadBits(4);
    ReadBitsBound(s, at, 4);
    r, trees := ReadTables(cursor, hlit + 257, hdist + 1, hclen + 4);
  }

  method ParseMatch(cursor: DeflateBitCursor, lenIndex: nat, dist: HuffmanDecoder, ghost distLengths: seq<nat>)
    returns (r: Result<()>)
    requires lenIndex < 29 && Represents(dist, distLengths)
    modifies cursor
    ensures Agrees(r, cursor.bitPos, EndOf(ReadMatch(BitsOf(cursor.data), old(cursor.bitPos), lenIndex, distLengths)))
  {
    hide BitsOf, DecodeSymbol, Represents, Value;
    var extraLen := LENGTH_EXTRA_BITS[lenIndex];
    if extraLen > 0 {
      var _ :- cursor.ReadBits(extraLen);
    }
    var distSym :- DecodeHuffmanSymbol(cursor, dist, distLengths);
    if distSym >= 30 {
      return Failure(BadDistanceSymbol);
    }
    var extraDist := DIST_EXTRA_BITS[distSym];
    if extraDist > 0 {
      var _ :- cursor.ReadBits(extraDist);
    }
    return Success(());
  }

  method ParseHuffmanBlockPayload(cursor: DeflateBitCursor, decoders: Decoders, ghost trees: Trees)
    returns (r: Result<()>)
    requires Represent(decoders, trees)
    modifies cursor
    ensures Agrees(r, cursor.bitPos, EndOf(ReadPayload(BitsOf(cursor.data), old(cursor.bitPos), trees)))
  {
    hide BitsOf, DecodeSymbol, Represents, ReadMatch;
    ghost var s, p := BitsOf(cursor.data), cursor.bitPos;
    while true
      invariant EndOf(ReadPayload(s, p, trees)) == EndOf(ReadPayload(s, cursor.bitPos, trees))
      decreases |s| - cursor.bitPos
    {
      ghost var at := cursor.bitPos;
      var sym :- DecodeHuffmanSymbol(cursor, decoders.lit, trees.lit);
      if sym < 256 {
        PayloadStep(s, at, trees);
        continue;
      }
      if sym == 256 {
        return Success(());
      }
      if sym > 285 {
        return Failure(BadLiteralSymbol);
      }
      var _ :- ParseMatch(cursor, sym - 257, decoders.dist, trees.dist);
      PayloadStep(s, at, trees);
    }
  }

  lemma PayloadStep(s: Bits, p: nat, trees: Trees)
    requires ReadItem(s, p, trees).Ok? && ReadItem(s, p, trees).value.Item?
    ensures EndOf(ReadPayload(s, p, trees)) == EndOf(ReadPayload(s, ReadItem(s, p, trees).next, trees))
  {
    hide ReadItem;
  }

  method ParseStored(cursor: DeflateBitCursor) returns (r: Result<()>)
    modifies cursor
    ensures Agrees(r, cursor.bitPos, EndOf(ReadStored(BitsOf(cursor.data), old(cursor.bitPos))))
  {
    hide BitsOf, Value, StoredTokens;
    cursor.AlignToByte();
    var len :- cursor.ReadBits(16);
    var nlen :- cursor.ReadBits(16);
    // len ^ 0xFFFF != nlen on 16-bit fields
    if len + nlen != 0xFFFF {
      return Failure(LengthMismatch);
    }
    var _ :- cursor.SkipBits(8 * len);
    return Success(());
  }

  method ParseBody(cursor: DeflateBitCursor, btype: nat) returns (r: Result<()>)
    modifies cursor
    ensures Agrees(r, cursor.bitPos, EndOf(ReadBody(BitsOf(cursor.data), old(cursor.bitPos), btype)))
  {
    hide BitsOf, ReadStored, ReadPayload, ReadDynamicTrees, Represents, FixedTrees;
    if btype == 0 {
      r := ParseStored(cursor);
    } else if btype == 1 {
      var decoders := FixedHuffmanTrees();
      r := ParseHuffmanBlockPayload(cursor, decoders.value, FixedTrees());
    } else if btype == 2 {
      var decoders, trees := ReadDynamicHuffmanTrees(cursor);
      if decoders.Failure? {
        return Failure(decoders.error);
      }
      r := ParseHuffmanBlockPayload(cursor, decoders.value, trees);
    } else {
      r := Failure(BadBlockType);
    }
  }

  /** The walker finds exactly the layout that the format gives the stream, and fails exactly when it has none. */
  method ParseDeflateStreamLayout(stream: seq<Byte>) returns (r: Result<Layout>)
    ensures if stream == [] then r == Failure(EmptyChunk)
            else match LayoutFrom(BitsOf(stream), 0) {
              case Ok(layout, _) => r == Success(layout)
              case Fail(e) => r == Failure(e)
            }
  {
    hide BitsOf, ReadBody, Value;
    if stream == [] {
      return Failure(EmptyChunk);
    }
    ghost var s := BitsOf(stream);
    var cursor := new DeflateBitCursor(stream);
    while true
      invariant LayoutFrom(s, 0) == LayoutFrom(s, cursor.bitPos) && cursor.data == stream
      decreases |s| - cursor.bitPos
    {
      var finalHeaderBit := cursor.bitPos;
      var bfinal :- cursor.ReadBit();
      var btype :- cursor.ReadBits(2);
      var _ :- ParseBody(cursor, btype);
      if bfinal {
        return Success(Layout(finalHeaderBit, cursor.bitPos));
      }
    }
  }
}
