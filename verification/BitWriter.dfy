/** The buffering bit writer that packs joined chunks into the output stream. */
module BitWriter {
  import opened Bits

  const FLUSH_BYTES: nat := 32 * 1024
  const DIRECT_BYTES: nat := 16 * 1024
  const BUFFER_BYTES: nat := 64 * 1024

  /** The byte at an arbitrary bit position. */
  function ReadUnalignedByte(bytes: seq<Byte>, bitPos: nat): Byte
    requires bitPos + 8 <= 8 * |bytes|
  {
    var bytePos := bitPos / 8;
    var shift := bitPos % 8;
    if shift == 0 then bytes[bytePos]
    else Or(Shr(bytes[bytePos], shift), Shl(bytes[bytePos + 1], 8 - shift))
  }

  lemma UnalignedByteBits(bytes: seq<Byte>, bitPos: nat)
    requires bitPos + 8 <= 8 * |bytes|
    ensures BitsOfByte(ReadUnalignedByte(bytes, bitPos)) == BitsOf(bytes)[bitPos..bitPos + 8]
  {
    hide Bit, BitAt, ReadUnalignedByte;
    forall i: nat | 0 <= i < 8
      ensures Bit(ReadUnalignedByte(bytes, bitPos), i) == BitAt(bytes, bitPos + i)
    {
      UnalignedBit(bytes, bitPos, i);
    }
  }

  lemma UnalignedBit(bytes: seq<Byte>, bitPos: nat, i: nat)
    requires bitPos + 8 <= 8 * |bytes| && i < 8
    ensures Bit(ReadUnalignedByte(bytes, bitPos), i) == BitAt(bytes, bitPos + i)
  {
    hide Bit, Shl, Shr, Or;
    var k, shift := bitPos / 8, bitPos % 8;
    if i + shift < 8 {
      assert (bitPos + i) / 8 == k && (bitPos + i) % 8 == i + shift;
    } else {
      assert (bitPos + i) / 8 == k + 1 && (bitPos + i) % 8 == i + shift - 8;
    }
    if shift != 0 {
      OrBit(Shr(bytes[k], shift), Shl(bytes[k + 1], 8 - shift), i);
      ShiftRightBit(bytes[k], shift, i);
      ShiftLeftBit(bytes[k + 1], 8 - shift, i);
    }
  }

  /** The bits above the first `used` of a partial byte are clear. */
  predicate CleanAbove(b: Byte, used: nat)
    requires used <= 8
  {
    forall i :: used <= i < 8 ==> !Bit(b, i)
  }

  function BitByte(bit: bool): Byte {
    if bit then 1 else 0
  }

  lemma AppendBitToByte(b: Byte, used: nat, bit: bool)
    requires used < 8 && CleanAbove(b, used)
    ensures CleanAbove(Or(b, Shl(BitByte(bit), used)), used + 1)
    ensures BitsOfByte(Or(b, Shl(BitByte(bit), used)))[..used + 1] == BitsOfByte(b)[..used] + [bit]
  {
    hide Bit, Shl, Shr, Or, BitByte;
    forall i | 0 <= i < 8
      ensures Bit(Or(b, Shl(BitByte(bit), used)), i) == (Bit(b, i) || (i == used && bit))
    {
      OrBit(b, Shl(BitByte(bit), used), i);
      PlacedBit(bit, used, i);
    }
  }

  lemma PlacedBit(bit: bool, used: nat, i: nat)
    requires used < 8 && i < 8
    ensures Bit(Shl(BitByte(bit), used), i) == (i == used && bit)
  {
    if bit {
      ShiftOne(used, i);
    } else {
      ShiftLeftBit(0, used, i);
      ZeroByteBit(if i >= used then i - used else 0);
    }
  }

  lemma MergeByte(b: Byte, used: nat, value: Byte)
    requires 0 < used < 8 && CleanAbove(b, used)
    ensures BitsOfByte(Or(b, Shl(value, used))) == BitsOfByte(b)[..used] + BitsOfByte(value)[..8 - used]
    ensures CleanAbove(Shr(value, 8 - used), used)
    ensures BitsOfByte(Shr(value, 8 - used))[..used] == BitsOfByte(value)[8 - used..]
  {
    hide Bit, Shl, Shr, Or;
    forall i | 0 <= i < 8
      ensures Bit(Or(b, Shl(value, used)), i) == if i < used then Bit(b, i) else Bit(value, i - used)
    {
      OrBit(b, Shl(value, used), i);
      ShiftLeftBit(value, used, i);
    }
    var rest := Shr(value, 8 - used);
    forall i | 0 <= i < 8
      ensures Bit(rest, i) == (i < used && Bit(value, i + 8 - used))
    {
      ShiftRightBit(value, 8 - used, i);
    }
  }

  lemma SliceGrows(v: Bits, bits: Bits, a: nat, b: nat, c: nat)
    requires a <= b <= c <= |bits|
    ensures v + bits[a..c] == v + bits[a..b] + bits[b..c]
  {
    assert bits[a..c] == bits[a..b] + bits[b..c];
  }

  lemma CleanTail(b: Byte, used: nat)
    requires used < 8 && CleanAbove(b, used)
    ensures BitsOfByte(b) == BitsOfByte(b)[..used] + Zeros(8 - used)
  {
    hide Bit;
    var s := BitsOfByte(b);
    assert forall i :: used <= i < 8 ==> !s[i];
  }

  lemma Regroup(a: Bits, part: Bits, x: Bits, k: nat)
    requires k <= |x|
    ensures a + part + x == a + (part + x[..k]) + x[k..]
  {
  }

  lemma CleanZero(zero: Byte)
    requires zero == 0
    ensures CleanAbove(zero, 0)
  {
    hide Bit;
    forall i | 0 <= i < 8
      ensures !Bit(zero, i)
    {
      ZeroByteBit(i);
    }
  }

  /** Adding whole bytes behind a byte string. */
  lemma AppendByte(before: seq<Byte>, b: Byte)
    ensures BitsOf(before + [b]) == BitsOf(before) + BitsOfByte(b)
  {
    BitsOfAppend(before, [b]);
    BitsOfSingle(b);
  }

  class DeflateBitWriter {
    /** What the underlying writer has received. */
    var sink: seq<Byte>
    var byte: Byte
    var used: nat
    var outBuf: seq<Byte>
    var totalBits: nat

    ghost predicate Valid()
      reads this
    {
      && used < 8
      && CleanAbove(byte, used)
      && |outBuf| < FLUSH_BYTES
      && totalBits == |View()|
    }

    /** Every bit accepted so far, in order. */
    ghost function View(): (s: Bits)
      reads this
    {
      BitsOf(sink + outBuf) + BitsOfByte(byte)[..if used < 8 then used else 0]
    }

    lemma UsedIsRemainder()
      requires Valid()
      ensures used == |View()| % 8
    {
    }

    lemma TotalIsLength()
      requires Valid()
      ensures totalBits == |View()|
    {
    }

    constructor ()
      ensures Valid() && View() == [] && sink == []
    {
      sink, byte, used, outBuf, totalBits := [], 0, 0, [], 0;
    }

    method FlushOutBuf()
      modifies this`sink, this`outBuf
      ensures outBuf == [] && sink == old(sink + outBuf)
    {
      if outBuf != [] {
        sink := sink + outBuf;
        outBuf := [];
      }
    }

    method EmitByte(b: Byte)
      requires |outBuf| < FLUSH_BYTES
      modifies this`sink, this`outBuf
      ensures |outBuf| < FLUSH_BYTES && sink + outBuf == old(sink + outBuf) + [b]
    {
      outBuf := outBuf + [b];
      assert sink + outBuf == old(sink + outBuf) + [b];
      if |outBuf| >= FLUSH_BYTES {
        FlushOutBuf();
      }
    }

    /** The buffered path and both direct paths deliver the same bytes. */
    method EmitBytes(bytes: seq<Byte>)
      requires |outBuf| < FLUSH_BYTES
      modifies this`sink, this`outBuf
      ensures |outBuf| < FLUSH_BYTES && sink + outBuf == old(sink + outBuf) + bytes
    {
      if bytes == [] {
        return;
      }
      if outBuf == [] && |bytes| >= DIRECT_BYTES {
        sink := sink + bytes;
        return;
      }
      if |outBuf| + |bytes| > BUFFER_BYTES {
        FlushOutBuf();
        if |bytes| >= DIRECT_BYTES {
          sink := sink + bytes;
          return;
        }
      }
      outBuf := outBuf + bytes;
      assert sink + outBuf == old(sink + outBuf) + bytes;
      if |outBuf| >= FLUSH_BYTES {
        FlushOutBuf();
      }
    }

    method WriteBit(bit: bool)
      requires Valid()
      modifies this
      ensures Valid() && View() == old(View()) + [bit]
      ensures used == (old(used) + 1) % 8
    {
      hide Bit, Shl, Or, BitsOf, BitsOfByte, CleanAbove;
      ghost var before, part := sink + outBuf, BitsOfByte(byte)[..used];
      AppendBitToByte(byte, used, bit);
      byte := Or(byte, Shl(BitByte(bit), used));
      used := used + 1;
      totalBits := totalBits + 1;
      if used == 8 {
        assert BitsOfByte(byte) == part + [bit];
        EmitByte(byte);
        AppendByte(before, byte);
        byte := 0;
        used := 0;
        CleanZero(byte);
      }
      assert View() == BitsOf(before) + (part + [bit]);
    }

    method WriteByteBits(value: Byte)
      requires Valid()
      modifies this
      ensures Valid() && View() == old(View()) + BitsOfByte(value)
      ensures used == old(used)
    {
      hide Bit, Shl, Shr, Or, BitsOf, BitsOfByte, CleanAbove;
      ghost var before, part := sink + outBuf, BitsOfByte(byte)[..used];
      if used == 0 {
        EmitByte(value);
        AppendByte(before, value);
        totalBits := totalBits + 8;
        assert BitsOf(before) + part == BitsOf(before);
        assert View() == BitsOf(sink + outBuf) + [];
        return;
      }
      MergeByte(byte, used, value);
      var merged := Or(byte, Shl(value, used));
      EmitByte(merged);
      AppendByte(before, merged);
      byte := Shr(value, 8 - used);
      totalBits := totalBits + 8;
      Regroup(BitsOf(before), part, BitsOfByte(value), 8 - used);
    }

    method WriteWholeBytes(bytes: seq<Byte>)
      requires Valid() && used == 0
      modifies this
      ensures Valid() && used == 0 && View() == old(View()) + BitsOf(bytes)
    {
      hide Bit, BitsOf, BitsOfByte, CleanAbove;
      ghost var before := sink + outBuf;
      EmitBytes(bytes);
      BitsOfAppend(before, bytes);
      totalBits := totalBits + |bytes| * 8;
      assert BitsOf(before) + BitsOfByte(byte)[..0] == BitsOf(before);
    }

    method WriteBitsFromSlice(src: seq<Byte>, srcBit0: nat, bitLen0: nat)
      requires Valid() && srcBit0 + bitLen0 <= 8 * |src|
      modifies this
      ensures Valid() && View() == old(View()) + BitsOf(src)[srcBit0..srcBit0 + bitLen0]
    {
      hide Bit, BitsOf, BitsOfByte, View, ReadUnalignedByte, Valid, ByteCount, PadTo8;
      var srcBit, bitLen := srcBit0, bitLen0;
      ghost var bits := BitsOf(src);
      while bitLen > 0
        invariant Valid()
        invariant srcBit0 <= srcBit && srcBit + bitLen == srcBit0 + bitLen0
        invariant View() == old(View()) + bits[srcBit0..srcBit]
      {
        ghost var at := srcBit;
        if used == 0 && srcBit % 8 == 0 && bitLen >= 8 {
          var byteCount := bitLen / 8;
          var start := srcBit / 8;
          BitsOfSlice(src, start, start + byteCount);
          WriteWholeBytes(src[start..start + byteCount]);
          srcBit := srcBit + byteCount * 8;
          bitLen := bitLen - byteCount * 8;
        } else if bitLen >= 8 {
          UnalignedByteBits(src, srcBit);
          WriteByteBits(ReadUnalignedByte(src, srcBit));
          srcBit := srcBit + 8;
          bitLen := bitLen - 8;
        } else {
          BitsOfAt(src, srcBit);
          WriteBit(BitAt(src, srcBit));
          srcBit := srcBit + 1;
          bitLen := bitLen - 1;
        }
        SliceGrows(old(View()), bits, srcBit0, at, srcBit);
      }
    }

    /** Completes the last byte with zero bits and hands everything to the underlying writer. */
    method Finish()
      requires Valid()
      modifies this
      ensures used == 0 && outBuf == []
      ensures BitsOf(sink) == old(View()) + Zeros(PadTo8(|old(View())|))
    {
      hide Bit, BitsOf, BitsOfByte, CleanAbove;
      ghost var before, part := sink + outBuf, BitsOfByte(byte)[..used];
      ghost var pad := Zeros(PadTo8(|View()|));
      if used > 0 {
        CleanTail(byte, used);
        EmitByte(byte);
        AppendByte(before, byte);
        byte := 0;
        used := 0;
      }
      FlushOutBuf();
      assert sink == sink + outBuf;
      assert BitsOf(sink) == BitsOf(before) + (part + pad);
    }
  }
}
