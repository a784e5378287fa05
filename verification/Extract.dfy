/** Cutting one chunk back out of a joined stream with the help of its index entry. */
module Extract {
  import opened Bits
  import opened BitWriter
  import opened Format
  import opened Join
  import opened StreamWriter
  import opened ChunkIndex
  import opened Transport
  import Walker

  datatype ExtractError = ZeroLength | BadConnector | FinalOutOfRange | OutOfBounds | BadStream(error: Error)

  datatype Extracted<+T> = Cut(value: T) | CutFailed(error: ExtractError)

  // ---- Copying a range of bits ------------------------------------------------------------------

  /** Bits `start..start + len`, padded with zeros to whole bytes. */
  function PaddedRange(s: Bits, start: nat, len: nat): (r: Bits)
    requires start + len <= |s|
    ensures |r| == 8 * ByteCount(len)
  {
    s[start..start + len] + Zeros(PadTo8(len))
  }

  lemma MaskedRange(out: seq<Byte>, s: Bits, start: nat, len: nat)
    requires start + len <= |s| && len > 0 && len % 8 != 0 && |out| == ByteCount(len)
    requires BitsOf(out)[..len] == s[start..start + len]
    ensures BitsOf(MaskLast(out, len % 8)) == PaddedRange(s, start, len)
  {
    hide BitsOf, MaskLast;
    MaskLastBits(out, len % 8);
    assert 8 * (|out| - 1) + len % 8 == len && 8 - len % 8 == PadTo8(len);
  }

  method CopyAligned(src: seq<Byte>, srcByte: nat, bitLen: nat) returns (out: seq<Byte>)
    requires 8 * srcByte + bitLen <= 8 * |src| && bitLen > 0
    ensures BitsOf(out) == PaddedRange(BitsOf(src), 8 * srcByte, bitLen)
  {
    hide BitsOf, MaskLast;
    var fullBytes, tailBits := bitLen / 8, bitLen % 8;
    out := src[srcByte..srcByte + fullBytes];
    BitsOfSlice(src, srcByte, srcByte + fullBytes);
    if tailBits != 0 {
      ghost var whole := src[srcByte..srcByte + fullBytes + 1];
      out := MaskLast(out + [src[srcByte + fullBytes]], tailBits);
      BitsOfSlice(src, srcByte, srcByte + fullBytes + 1);
      assert src[srcByte..srcByte + fullBytes] + [src[srcByte + fullBytes]] == whole;
      SliceOfSlice(BitsOf(src), 8 * srcByte, 8 * (srcByte + fullBytes + 1), 0, bitLen);
      MaskedRange(whole, BitsOf(src), 8 * srcByte, bitLen);
    }
  }

  /** A byte put together from its two neighbours is the byte at the unaligned position; behind the end
      of the source there are zeros. */
  function ShiftedByte(src: seq<Byte>, startBit: nat, i: nat): (b: Byte)
    requires startBit / 8 + i < |src| && startBit % 8 != 0
    ensures b == ReadUnalignedByte(src + [0], startBit + 8 * i)
  {
    var srcByte, bitShift := startBit / 8, startBit % 8;
    var lo := Shr(src[srcByte + i], bitShift);
    var hi := Shl(if srcByte + i + 1 < |src| then src[srcByte + i + 1] else 0, 8 - bitShift);
    assert (startBit + 8 * i) / 8 == srcByte + i && (startBit + 8 * i) % 8 == bitShift;
    Or(lo, hi)
  }

  method CopyShifted(src: seq<Byte>, startBit: nat, outLen: nat) returns (out: seq<Byte>)
    requires startBit % 8 != 0 && startBit / 8 + outLen <= |src|
    ensures |out| == outLen && BitsOf(out) == BitsOf(src + [0])[startBit..startBit + 8 * outLen]
  {
    hide BitsOf, ShiftedByte, ReadUnalignedByte;
    ghost var s := BitsOf(src + [0]);
    var buffer := new Byte[outLen](_ => 0);
    BitsOfNothing();
    for i := 0 to outLen
      invariant BitsOf(buffer[..i]) == s[startBit..startBit + 8 * i]
    {
      buffer[i] := ShiftedByte(src, startBit, i);
      UnalignedByteBits(src + [0], startBit + 8 * i);
      AppendByte(buffer[..i], buffer[i]);
      assert buffer[..i + 1] == buffer[..i] + [buffer[i]];
      assert s[startBit..startBit + 8 * i] + s[startBit + 8 * i..startBit + 8 * i + 8]
          == s[startBit..startBit + 8 * (i + 1)];
    }
    assert buffer[..outLen] == buffer[..];
    return buffer[..];
  }

  lemma BitsOfNothing()
    ensures BitsOf([]) == []
  {
  }

  method CopyBitRange(src: seq<Byte>, startBit: nat, bitLen: nat) returns (r: Extracted<seq<Byte>>)
    ensures if startBit + bitLen > 8 * |src| then r == CutFailed(OutOfBounds)
            else r.Cut? && BitsOf(r.value) == PaddedRange(BitsOf(src), startBit, bitLen)
  {
    hide BitsOf, MaskLast;
    var totalBits := 8 * |src|;
    if startBit > totalBits || bitLen > totalBits - startBit {
      return CutFailed(OutOfBounds);
    }
    if bitLen == 0 {
      BitsOfNothing();
      return Cut([]);
    }
    if startBit % 8 == 0 {
      var out := CopyAligned(src, startBit / 8, bitLen);
      return Cut(out);
    }
    var out := CopyShifted(src, startBit, ByteCount(bitLen));
    BitsOfAppend(src, [0]);
    assert BitsOf(out)[..bitLen] == BitsOf(src)[startBit..startBit + bitLen];
    if bitLen % 8 != 0 {
      MaskedRange(out, BitsOf(src), startBit, bitLen);
      out := MaskLast(out, bitLen % 8);
    } else {
      assert BitsOf(out)[..bitLen] == BitsOf(out);
    }
    return Cut(out);
  }

  // ---- One indexed chunk ------------------------------------------------------------------------

  /** The size of the connector that the writer put in front, recomputed from the carry alone. */
  function ConnectorBits(carry: nat): nat {
    var afterHeader := (carry + 3) % 8;
    var padBits := (8 - afterHeader) % 8;
    3 + padBits + 32
  }

  /** Where a chunk's own bits lie, and where its final flag is among them. */
  datatype Range = Range(start: nat, len: nat, finalBit: nat)

  function ChunkRange(e: IndexEntry): Extracted<Range> {
    if e.compBitLen == 0 then CutFailed(ZeroLength)
    else
      var connector := if e.compBitOff % 8 != 0 then ConnectorBits(e.compBitOff % 8) else 0;
      if connector > 0 && (connector >= e.compBitLen || e.finalHeaderRelBit < connector) then CutFailed(BadConnector)
      else if e.finalHeaderRelBit - connector >= e.compBitLen - connector then CutFailed(FinalOutOfRange)
      else Cut(Range(e.compBitOff + connector, e.compBitLen - connector, e.finalHeaderRelBit - connector))
  }

  /** The range with its final flag set. */
  function Patched(s: Bits, r: Range): Bits
    requires r.start + r.len <= |s| && r.finalBit < r.len
  {
    PaddedRange(s, r.start, r.len)[r.finalBit := true]
  }

  function FirstStream(chunk: Bits): Extracted<Bits> {
    match LayoutFrom(chunk, 0)
    case Fail(e) => CutFailed(BadStream(e))
    case Ok(l, _) => Cut(chunk[..l.endBit])
  }

  /** The bits that decoding chunk `e` of the stream `s` starts from. */
  function PreparedBits(s: Bits, e: IndexEntry): Extracted<Bits> {
    match ChunkRange(e)
    case CutFailed(error) => CutFailed(error)
    case Cut(r) => if r.start + r.len > |s| then CutFailed(OutOfBounds) else FirstStream(Patched(s, r))
  }

  method TruncateTo(chunk: seq<Byte>, endBit: nat) returns (out: seq<Byte>)
    requires 0 < endBit <= 8 * |chunk|
    ensures BitsOf(out) == PaddedRange(BitsOf(chunk), 0, endBit)
  {
    hide BitsOf, MaskLast;
    var keepBytes := ByteCount(endBit);
    out := chunk[..keepBytes];
    BitsOfSlice(chunk, 0, keepBytes);
    assert BitsOf(out)[..endBit] == BitsOf(chunk)[0..0 + endBit];
    if endBit % 8 != 0 {
      MaskedRange(out, BitsOf(chunk), 0, endBit);
      out := MaskLast(out, endBit % 8);
    } else {
      assert BitsOf(out)[..endBit] == BitsOf(out);
    }
  }

  method PrepareIndexedChunkForDecode(compressed: seq<Byte>, entry: IndexEntry) returns (r: Extracted<seq<Byte>>)
    ensures match PreparedBits(BitsOf(compressed), entry) {
              case CutFailed(e) => r == CutFailed(e)
              case Cut(bits) => r.Cut? && BitsOf(r.value) == PaddedRange(bits, 0, |bits|)
            }
  {
    hide BitsOf, SetBitAt, LayoutFrom;
    if entry.compBitLen == 0 {
      return CutFailed(ZeroLength);
    }
    var entryStartBit, entryBitLen, finalBit := entry.compBitOff, entry.compBitLen, entry.finalHeaderRelBit;
    if entryStartBit % 8 != 0 {
      var connectorBits := ConnectorBits(entryStartBit % 8);
      if connectorBits >= entryBitLen || finalBit < connectorBits {
        return CutFailed(BadConnector);
      }
      entryStartBit := entryStartBit + connectorBits;
      entryBitLen := entryBitLen - connectorBits;
      finalBit := finalBit - connectorBits;
    }
    if finalBit >= entryBitLen {
      return CutFailed(FinalOutOfRange);
    }
    var chunk := CopyBitRange(compressed, entryStartBit, entryBitLen);
    if chunk.CutFailed? {
      return chunk;
    }
    SetBit(chunk.value, finalBit);
    var patched := SetBitAt(chunk.value, finalBit);
    var layout := Walker.ParseDeflateStreamLayout(patched);
    if layout.Failure? {
      return CutFailed(BadStream(layout.error));
    }
    var out := TruncateTo(patched, layout.value.endBit);
    ghost var bits := BitsOf(patched)[..layout.value.endBit];
    assert bits[0..0 + |bits|] == BitsOf(patched)[0..0 + layout.value.endBit];
    return Cut(out);
  }

  // ---- Extraction undoes joining ----------------------------------------------------------------

  /** The recomputed connector is the one that was written. */
  lemma ConnectorRecomputed(n: nat)
    ensures ConnectorBits(n % 8) == |Connector(n)|
  {
  }

  lemma EntryRange(n: nat, idx: nat, c: Chunk, final: bool)
    requires WellPlaced(c) && (idx == 0 ==> n == 0)
    ensures ChunkRange(EntryFor(n, idx, c, final))
         == Cut(Range(n + |Lead(n, idx)|, c.layout.endBit + |Trail(c, final)|, c.layout.finalHeaderBit))
  {
    hide Connector, ConnectorBits, Body, Trail;
    ConnectorRecomputed(n);
  }

  /** Setting the final flag of an unaltered or cleared body gives back the original bits. */
  lemma PatchedBody(t: Bits, base: nat, c: Chunk, final: bool)
    requires WellPlaced(c) && BitsOf(c.bytes)[c.layout.finalHeaderBit]
    requires Holds(t, base, Body(c, final)) && Holds(t, base + c.layout.endBit, Trail(c, final))
    ensures var p := Patched(t, Range(base, c.layout.endBit + |Trail(c, final)|, c.layout.finalHeaderBit));
            c.layout.endBit <= |p| && p[..c.layout.endBit] == BitsOf(c.bytes)[..c.layout.endBit]
  {
    hide BitsOf, Trail;
    var s, end, fh, len := BitsOf(c.bytes), c.layout.endBit, c.layout.finalHeaderBit, c.layout.endBit
        + |Trail(c, final)|;
    assert t[base..base + len][..end] == t[base..base + end] == s[..end][fh := final];
    assert PaddedRange(t, base, len)[..end] == s[..end][fh := final];
  }

  /** The walker finds the original end in front of whatever follows. */
  lemma FirstStreamIs(s: Bits, p: Bits, l: Layout)
    requires LayoutFrom(s, 0) == Ok(l, l.endBit) && l.endBit <= |p| && p[..l.endBit] == s[..l.endBit]
    ensures FirstStream(p) == Cut(s[..l.endBit])
  {
    hide LayoutFrom;
    forall j | 0 <= j < l.endBit
      ensures s[j] == p[j]
    {
      assert p[..l.endBit][j] == s[..l.endBit][j];
    }
    MoveLayout(s, p, 0, 0);
  }

  lemma SoundLayout(c: Chunk)
    requires Sound(c)
    ensures WellPlaced(c) && BitsOf(c.bytes)[c.layout.finalHeaderBit]
    ensures LayoutFrom(BitsOf(c.bytes), 0) == Ok(c.layout, c.layout.endBit)
  {
    hide BitsOf, InflateFrom, LayoutFrom;
    InflateLayout(BitsOf(c.bytes), 0, []);
  }

  /** Wherever a chunk was written, its index entry leads back to exactly its original bits. */
  lemma ExtractStep(t: Bits, n: nat, idx: nat, c: Chunk, final: bool)
    requires Sound(c) && (idx == 0 ==> n == 0)
    requires WellPlaced(c) && Holds(t, n, StepBits(n, idx, c, final))
    ensures PreparedBits(t, EntryFor(n, idx, c, final)) == Cut(BitsOf(c.bytes)[..c.layout.endBit])
  {
    hide BitsOf, Sound, LayoutFrom, FirstStream, Patched, Lead, Trail, Body, StepBits, ChunkRange, EntryFor;
    var base := n + |Lead(n, idx)|;
    SoundLayout(c);
    EntryRange(n, idx, c, final);
    StepParts(t, n, idx, c, final);
    PatchedBody(t, base, c, final);
    FirstStreamIs(BitsOf(c.bytes),
        Patched(t, Range(base, c.layout.endBit + |Trail(c, final)|, c.layout.finalHeaderBit)), c.layout);
  }

  /** Index extraction undoes joining, for every chunk, at every carry, and whatever the final flags were. */
  lemma ExtractUndoesJoin(chunks: seq<Chunk>, finals: seq<bool>, i: nat, t: Bits)
    requires AllSound(chunks) && i < |chunks| == |finals|
    requires Joined(chunks, finals, |chunks|) <= t
    ensures var n := |Joined(chunks, finals, i)|; var c := chunks[i];
            PreparedBits(t, EntryFor(n, i, c, finals[i])) == Cut(BitsOf(c.bytes)[..c.layout.endBit])
  {
    hide BitsOf, Sound, WellPlaced, StepBits, EntryFor, PreparedBits;
    var before := Joined(chunks, finals, i);
    var step := StepBits(|before|, i, chunks[i], finals[i]);
    JoinedPrefix(chunks, finals, i + 1, |chunks|);
    assert Joined(chunks, finals, i + 1) == before + step <= t;
    assert t[|before|..|before| + |step|] == step;
    assert i == 0 ==> before == [];
    ExtractStep(t, |before|, i, chunks[i], finals[i]);
  }

  /** Random access: decoding the bytes prepared for chunk `i` gives that chunk's content and nothing else. */
  lemma ExtractedMeaning(chunks: seq<Chunk>, finals: seq<bool>, i: nat, t: Bits, padding: Bits)
    requires AllSound(chunks) && i < |chunks| == |finals|
    requires Joined(chunks, finals, |chunks|) <= t
    ensures var r := PreparedBits(t, EntryFor(|Joined(chunks, finals, i)|, i, chunks[i], finals[i]));
            && r.Cut? && Inflate(r.value + padding).Some?
            && Inflate(r.value + padding).value.out == Content(chunks[i])
  {
    hide BitsOf, InflateFrom, StepBits, EntryFor, PreparedBits, Joined;
    var c := chunks[i];
    assert Sound(c);
    var s := BitsOf(c.bytes);
    ExtractUndoesJoin(chunks, finals, i, t);
    assert (s[..c.layout.endBit] + padding)[..c.layout.endBit] == s[..c.layout.endBit];
    KeepsMeaning(s, s[..c.layout.endBit] + padding, Inflate(s).value);
  }
}
