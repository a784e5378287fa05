/** Preparing a GPU chunk for the middle of the stream: its final flag is cleared in place and an
    alignment block is appended bit by bit. */
module ChunkPrepare {
  import opened Bits
  import opened Format
  import opened Join

  datatype PrepareError = BadLayout | ShortChunk

  datatype Prepared = Prepared(bytes: seq<Byte>, endBit: nat) | Refused(error: PrepareError)

  /** Bits from position `n` on are clear. */
  predicate CleanBeyond(bits: seq<Byte>, n: nat) {
    forall i :: n <= i < 8 * |bits| ==> !BitAt(bits, i)
  }

  /** The bits appended so far fill exactly the bytes they need. */
  predicate Packed(bits: seq<Byte>, n: nat) {
    |bits| == ByteCount(n) && CleanBeyond(bits, n)
  }

  function AppendBitToVecLsb(bits: seq<Byte>, n: nat, bit: bool): seq<Byte>
    requires |bits| == ByteCount(n)
  {
    var grown := if n / 8 == |bits| then bits + [0] else bits;
    if bit then SetBitAt(grown, n) else grown
  }

  lemma GrowZero(bits: seq<Byte>)
    ensures BitsOf(bits + [0]) == BitsOf(bits) + Zeros(8)
  {
    hide BitsOf, BitsOfByte, Bit;
    BitsOfAppend(bits, [0]);
    BitsOfSingle(0);
    ConstantByteBits();
  }

  lemma PackedBits(bits: seq<Byte>, n: nat)
    requires |bits| == ByteCount(n)
    ensures Packed(bits, n) <==> BitsOf(bits) == BitsOf(bits)[..n] + Zeros(PadTo8(n))
  {
    hide Bit;
    var s := BitsOf(bits);
    if Packed(bits, n) {
      forall i: nat | n <= i < |s|
        ensures !s[i]
      {
        assert !BitAt(bits, i);
      }
      assert s == s[..n] + Zeros(PadTo8(n));
    }
    if s == s[..n] + Zeros(PadTo8(n)) {
      forall i: nat | n <= i < 8 * |bits|
        ensures !BitAt(bits, i)
      {
        BitsOfAt(bits, i);
        assert s[i] == Zeros(PadTo8(n))[i - n];
      }
    }
  }

  lemma AppendBit(bits: seq<Byte>, n: nat, bit: bool)
    requires Packed(bits, n)
    ensures var r := AppendBitToVecLsb(bits, n, bit);
            Packed(r, n + 1) && BitsOf(r)[..n + 1] == BitsOf(bits)[..n] + [bit]
  {
    hide BitsOf, SetBitAt, CleanBeyond;
    var grown := if n / 8 == |bits| then bits + [0] else bits;
    var r := AppendBitToVecLsb(bits, n, bit);
    PackedBits(bits, n);
    GrowZero(bits);
    var s, z := BitsOf(bits)[..n], 8 * |grown| - n;
    assert |grown| == ByteCount(n + 1) && z == PadTo8(n + 1) + 1;
    assert BitsOf(grown) == s + Zeros(z);
    SetBit(grown, n);
    assert BitsOf(r) == s + [bit] + Zeros(z - 1);
    PackedBits(r, n + 1);
  }

  /** `r` is `bits` with the bits `x` appended, provided nothing was set behind `bits` before. */
  ghost predicate Appended(bits: seq<Byte>, n: nat, r: seq<Byte>, m: nat, x: Bits) {
    && |bits| == ByteCount(n) && |r| == ByteCount(m) && m == n + |x|
    && (CleanBeyond(bits, n) ==> CleanBeyond(r, m) && BitsOf(r)[..m] == BitsOf(bits)[..n] + x)
  }

  lemma AppendedChain(bits: seq<Byte>, n: nat, r: seq<Byte>, m: nat, x: Bits, q: seq<Byte>, k: nat, y: Bits, z: Bits)
    requires Appended(bits, n, r, m, x) && Appended(r, m, q, k, y) && z == x + y
    ensures Appended(bits, n, q, k, z)
  {
    hide BitsOf, CleanBeyond;
    assert BitsOf(bits)[..n] + x + y == BitsOf(bits)[..n] + (x + y);
  }

  method AppendBitToVec(bits0: seq<Byte>, n0: nat, bit: bool) returns (bits: seq<Byte>, n: nat)
    requires |bits0| == ByteCount(n0)
    ensures Appended(bits0, n0, bits, n, [bit])
  {
    hide BitsOf, CleanBeyond, SetBitAt;
    bits, n := AppendBitToVecLsb(bits0, n0, bit), n0 + 1;
    if CleanBeyond(bits0, n0) {
      AppendBit(bits0, n0, bit);
    }
  }

  method AppendByteToVec(bits0: seq<Byte>, n0: nat, value: Byte) returns (bits: seq<Byte>, n: nat)
    requires |bits0| == ByteCount(n0)
    ensures Appended(bits0, n0, bits, n, BitsOfByte(value))
  {
    hide BitsOf, CleanBeyond, Bit, Appended, ByteCount, BitsOfByte;
    ghost var x := BitsOfByte(value);
    bits, n := bits0, n0;
    assert x[..0] == [] && x[..8] == x;
    NothingAppended(bits0, n0);
    for shift := 0 to 8
      invariant Appended(bits0, n0, bits, n, x[..shift])
    {
      ghost var before, m := bits, n;
      AppendedSize(bits0, n0, bits, n, x[..shift]);
      BitOfByte(value, shift);
      bits, n := AppendBitToVec(bits, n, Bit(value, shift));
      AppendedChain(bits0, n0, before, m, x[..shift], bits, n, [x[shift]], x[..shift + 1]);
    }
  }

  lemma NothingAppended(bits: seq<Byte>, n: nat)
    requires |bits| == ByteCount(n)
    ensures Appended(bits, n, bits, n, [])
  {
    hide BitsOf, CleanBeyond;
  }

  lemma AppendedSize(bits: seq<Byte>, n: nat, r: seq<Byte>, m: nat, x: Bits)
    requires Appended(bits, n, r, m, x)
    ensures |r| == ByteCount(m) && m == n + |x|
  {
    hide BitsOf, CleanBeyond;
  }

  lemma BitOfByte(b: Byte, i: nat)
    requires i < 8
    ensures BitsOfByte(b)[i] == Bit(b, i)
  {
    hide Bit;
  }

  lemma OneMoreZero(k: nat)
    ensures Zeros(k + 1) == Zeros(k) + [false] && Zeros(0) == []
  {
  }

  lemma PaddingStep(n: nat, k: nat)
    requires k <= PadTo8(n)
    ensures if (n + k) % 8 == 0 then k == PadTo8(n) else k < PadTo8(n)
  {
  }

  /** Three header bits and the padding behind them. */
  method AppendZerosToByte(bits0: seq<Byte>, n0: nat) returns (bits: seq<Byte>, n: nat)
    requires |bits0| == ByteCount(n0)
    ensures Appended(bits0, n0, bits, n, Zeros(3 + PadTo8(n0 + 3)))
  {
    hide BitsOf, CleanBeyond, Appended, ByteCount, PadTo8, Zeros;
    bits, n := bits0, n0;
    NothingAppended(bits0, n0);
    OneMoreZero(0);
    for i := 0 to 3
      invariant Appended(bits0, n0, bits, n, Zeros(i))
    {
      ghost var before, m := bits, n;
      AppendedSize(bits0, n0, bits, n, Zeros(i));
      OneMoreZero(i);
      bits, n := AppendBitToVec(bits, n, false);
      AppendedChain(bits0, n0, before, m, Zeros(i), bits, n, [false], Zeros(i + 1));
    }
    ghost var k: nat := 0;
    while n % 8 != 0
      invariant k <= PadTo8(n0 + 3) && Appended(bits0, n0, bits, n, Zeros(3 + k))
      decreases PadTo8(n0 + 3) - k
    {
      ghost var before, m := bits, n;
      AppendedSize(bits0, n0, bits, n, Zeros(3 + k));
      OneMoreZero(3 + k);
      PaddingStep(n0 + 3, k);
      bits, n := AppendBitToVec(bits, n, false);
      AppendedChain(bits0, n0, before, m, Zeros(3 + k), bits, n, [false], Zeros(3 + k + 1));
      k := k + 1;
    }
    AppendedSize(bits0, n0, bits, n, Zeros(3 + k));
    PaddingStep(n0 + 3, k);
  }

  method AppendLengthFields(bits0: seq<Byte>, n0: nat) returns (bits: seq<Byte>, n: nat)
    requires |bits0| == ByteCount(n0)
    ensures Appended(bits0, n0, bits, n, Zeros(16) + Ones(16))
  {
    hide BitsOf, CleanBeyond, BitsOfByte, ByteCount;
    ghost var z, f := BitsOfByte(0x00), BitsOfByte(0xff);
    LengthFieldBits();
    var a, i := AppendByteToVec(bits0, n0, 0x00);
    var b, j := AppendByteToVec(a, i, 0x00);
    AppendedChain(bits0, n0, a, i, z, b, j, z, Zeros(16));
    var c, k := AppendByteToVec(b, j, 0xff);
    bits, n := AppendByteToVec(c, k, 0xff);
    AppendedChain(b, j, c, k, f, bits, n, f, Ones(16));
    AppendedChain(bits0, n0, b, j, Zeros(16), bits, n, Ones(16), Zeros(16) + Ones(16));
  }

  method AppendEmptyStoredBlockNonFinalBits(bits0: seq<Byte>, n0: nat) returns (bits: seq<Byte>, n: nat)
    requires |bits0| == ByteCount(n0)
    ensures Appended(bits0, n0, bits, n, Connector(n0))
  {
    hide BitsOf, CleanBeyond;
    var a, i := AppendZerosToByte(bits0, n0);
    bits, n := AppendLengthFields(a, i);
    ghost var x := Zeros(3 + PadTo8(n0 + 3));
    assert x == Zeros(3) + Zeros(PadTo8(n0 + 3));
    AppendedChain(bits0, n0, a, i, x, bits, n, Zeros(16) + Ones(16), Connector(n0));
  }

  /** The prepared bytes hold the chunk without its final flag, followed by an alignment block where needed. */
  method PrepareChunkBitsForNonFinalStream(chunk: seq<Byte>, layout: Layout) returns (r: Prepared)
    ensures if layout.endBit == 0 then r == Prepared(chunk, 0)
            else if layout.finalHeaderBit >= layout.endBit then r == Refused(BadLayout)
            else if 8 * |chunk| < layout.endBit then r == Refused(ShortChunk)
            else r.Prepared? && |r.bytes| == ByteCount(r.endBit)
    ensures var c := Chunk(chunk, layout, 0, true);
            WellPlaced(c) && CleanPadding(chunk, layout.endBit) ==>
              BitsOf(r.bytes)[..r.endBit] == Body(c, false) + Trail(c, false)
  {
    hide BitsOf, CleanBeyond, CleanPadding, Connector, ClearBitAt;
    if layout.endBit == 0 {
      return Prepared(chunk, 0);
    }
    if layout.finalHeaderBit >= layout.endBit {
      return Refused(BadLayout);
    }
    var requiredBytes := ByteCount(layout.endBit);
    if |chunk| < requiredBytes {
      return Refused(ShortChunk);
    }
    var bytes := ClearBitAt(chunk[..requiredBytes], layout.finalHeaderBit);
    var endBit := layout.endBit;
    ClearedBody(chunk, layout);
    if endBit % 8 != 0 {
      bytes, endBit := AppendEmptyStoredBlockNonFinalBits(bytes, endBit);
    }
    return Prepared(bytes, endBit);
  }

  lemma ClearedBody(chunk: seq<Byte>, layout: Layout)
    requires layout.finalHeaderBit < layout.endBit <= 8 * |chunk|
    ensures ByteCount(layout.endBit) <= |chunk|
    ensures var bytes := ClearBitAt(chunk[..ByteCount(layout.endBit)], layout.finalHeaderBit);
            && BitsOf(bytes)[..layout.endBit] == Body(Chunk(chunk, layout, 0, true), false)
            && (CleanPadding(chunk, layout.endBit) ==> CleanBeyond(bytes, layout.endBit))
  {
    hide Bit, ClearBitAt;
    var k, end, fh := ByteCount(layout.endBit), layout.endBit, layout.finalHeaderBit;
    var bytes := ClearBitAt(chunk[..k], fh);
    ClearBit(chunk[..k], fh);
    BitsOfSlice(chunk, 0, k);
    assert BitsOf(bytes) == BitsOf(chunk)[..8 * k][fh := false];
    if CleanPadding(chunk, end) {
      forall i: nat | end <= i < 8 * |bytes|
        ensures !BitAt(bytes, i)
      {
        BitsOfAt(bytes, i);
        BitsOfAt(chunk, i);
        assert BitsOf(chunk)[..8 * k][fh := false][i] == BitsOf(chunk)[i];
      }
    }
  }
}
