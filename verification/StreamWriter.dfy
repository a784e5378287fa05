/** The in-order writer: it adapts every compressed chunk to the stream and records where it went. */
module StreamWriter {
  import opened Options
  import opened Bits
  import opened BitWriter
  import opened Format
  import opened Join
  import opened Transport
  import opened ChunkIndex
  import Walker
  import ChunkPrepare
  import Octets

  datatype WriteError = BadLayout | ShortChunk | DataTooLarge

  datatype Outcome<+T> = Done(value: T) | Refused(error: WriteError)

  method WriteChunkBitsWithFinalOverride(w: DeflateBitWriter, chunk: seq<Byte>, layout: Layout, desiredFinal: bool)
    returns (ok: bool)
    requires w.Valid() && layout.endBit <= 8 * |chunk|
    modifies w
    ensures w.Valid() && ok == (layout.endBit == 0 || layout.finalHeaderBit < layout.endBit)
    ensures w.View() == old(w.View()) +
              if !ok || layout.endBit == 0 then []
              else BitsOf(chunk)[..layout.endBit][layout.finalHeaderBit := desiredFinal]
  {
    hide BitsOf, DeflateBitWriter.View, DeflateBitWriter.Valid;
    if layout.endBit == 0 {
      return true;
    }
    if layout.finalHeaderBit >= layout.endBit {
      return false;
    }
    ghost var s := BitsOf(chunk);
    var fh, end := layout.finalHeaderBit, layout.endBit;
    BitsOfAt(chunk, fh);
    var currentFinal := BitAt(chunk, fh);
    if currentFinal == desiredFinal {
      w.WriteBitsFromSlice(chunk, 0, end);
      assert s[0..0 + end] == s[..end][fh := desiredFinal];
      return true;
    }
    if fh > 0 {
      w.WriteBitsFromSlice(chunk, 0, fh);
    }
    w.WriteBit(desiredFinal);
    var tailStart := fh + 1;
    if tailStart < end {
      w.WriteBitsFromSlice(chunk, tailStart, end - tailStart);
    }
    assert s[..end][fh := desiredFinal] == s[0..fh] + [desiredFinal] + s[tailStart..end];
    return true;
  }

  method WriteZerosToByte(w: DeflateBitWriter)
    requires w.Valid()
    modifies w
    ensures w.Valid() && w.View() == old(w.View()) + Zeros(PadTo8(|old(w.View())|))
  {
    hide BitsOf, BitsOfByte, DeflateBitWriter.View, DeflateBitWriter.Valid, Zeros, PadTo8;
    ghost var v: Bits, pad: nat := w.View(), 0;
    w.UsedIsRemainder();
    NoZeros(v);
    while w.used != 0
      invariant w.Valid() && w.used == (|v| + pad) % 8
      invariant pad <= PadTo8(|v|) && w.View() == v + Zeros(pad)
      decreases PadTo8(|v|) - pad
    {
      PadStep(|v|, pad);
      w.WriteBit(false);
      ZerosMore(v, pad);
      pad := pad + 1;
    }
    PadStep(|v|, pad);
  }

  lemma NoZeros(v: Bits)
    ensures v + Zeros(0) == v
  {
  }

  lemma ZerosMore(v: Bits, pad: nat)
    ensures v + Zeros(pad) + [false] == v + Zeros(pad + 1)
  {
  }

  lemma PadStep(n: nat, pad: nat)
    requires pad <= PadTo8(n)
    ensures if (n + pad) % 8 == 0 then pad == PadTo8(n)
            else pad < PadTo8(n) && (n + pad + 1) % 8 == ((n + pad) % 8 + 1) % 8
  {
    var q, m := n / 8, n % 8;
    assert n + pad == 8 * q + (m + pad) && m + pad <= 8;
  }

  method AppendEmptyStoredBlockNonFinal(w: DeflateBitWriter)
    requires w.Valid()
    modifies w
    ensures w.Valid() && w.View() == old(w.View()) + Connector(|old(w.View())|)
  {
    hide BitsOf, BitsOfByte, DeflateBitWriter.View, DeflateBitWriter.Valid, Connector, PadTo8;
    ghost var v := w.View();
    w.WriteBit(false);
    w.WriteBit(false);
    w.WriteBit(false);
    assert w.View() == v + Zeros(3);
    WriteZerosToByte(w);
    assert w.View() == v + (Zeros(3) + Zeros(PadTo8(|v| + 3)));
    ConnectorParts(|v|, v);
    w.WriteByteBits(0x00);
    w.WriteByteBits(0x00);
    w.WriteByteBits(0xff);
    w.WriteByteBits(0xff);
  }

  /** A compressed chunk as it waits for the writer; `prepared` is the end of a prepared GPU chunk. */
  datatype ReadyChunk = ReadyChunk(compressed: seq<Byte>, layout: Layout, rawLen: nat, prepared: Option<nat>)

  ghost predicate Readied(rc: ReadyChunk, c: Chunk) {
    && rc.layout == c.layout && rc.rawLen == c.rawLen && WellPlaced(c)
    && if c.gpu then
         && rc.prepared.Some? && rc.prepared.value <= 8 * |rc.compressed|
         && BitsOf(rc.compressed)[..rc.prepared.value] == Body(c, false) + Trail(c, false)
       else
         rc.prepared == None && rc.compressed == c.bytes
  }

  /** What a worker hands to the writer: GPU chunks are prepared for the middle of the stream. */
  method ReadyUp(c: Chunk) returns (r: Option<ReadyChunk>)
    ensures WellPlaced(c) ==> r.Some?
    ensures WellPlaced(c) && (c.gpu ==> CleanPadding(c.bytes, c.layout.endBit)) ==> Readied(r.value, c)
  {
    hide BitsOf, CleanPadding, Connector;
    if !c.gpu {
      return Some(ReadyChunk(c.bytes, c.layout, c.rawLen, None));
    }
    var p := ChunkPrepare.PrepareChunkBitsForNonFinalStream(c.bytes, c.layout);
    if p.Refused? {
      return None;
    }
    assert WellPlaced(c) ==> Body(Chunk(c.bytes, c.layout, 0, true), false) == Body(c, false);
    return Some(ReadyChunk(p.bytes, c.layout, c.rawLen, Some(p.endBit)));
  }

  /** The index entry of chunk `idx` written behind `n` bits. */
  function EntryFor(n: nat, idx: nat, c: Chunk, final: bool): IndexEntry
    requires WellPlaced(c)
  {
    IndexEntry(n, |StepBits(n, idx, c, final)|, |Lead(n, idx)| + c.layout.finalHeaderBit, c.rawLen)
  }

  method WriteBody(w: DeflateBitWriter, rc: ReadyChunk, isFinal: bool, ghost c: Chunk)
    requires w.Valid() && Readied(rc, c)
    modifies w
    ensures w.Valid() && w.View() == old(w.View()) + (Body(c, isFinal) + Trail(c, isFinal))
  {
    hide BitsOf, DeflateBitWriter.View, DeflateBitWriter.Valid, Connector;
    ghost var s, end, fh := BitsOf(rc.compressed), rc.layout.endBit, rc.layout.finalHeaderBit;
    if rc.prepared.Some? {
      if isFinal {
        assert s[..end] == s[..rc.prepared.value][..end] == Body(c, false);
        var _ := WriteChunkBitsWithFinalOverride(w, rc.compressed, rc.layout, true);
        assert Body(c, false)[fh := true] == Body(c, true) == Body(c, true) + Trail(c, true);
      } else {
        w.WriteBitsFromSlice(rc.compressed, 0, rc.prepared.value);
        assert s[0..0 + rc.prepared.value] == s[..rc.prepared.value];
      }
    } else {
      var _ := WriteChunkBitsWithFinalOverride(w, rc.compressed, rc.layout, isFinal);
      assert Body(c, isFinal) == Body(c, isFinal) + Trail(c, isFinal);
    }
  }

  /** What the entry says about a stream that ends with the chunk: where its bits are, where its final header bit is,
      and how long its content is. */
  ghost predicate Describes(e: IndexEntry, s: Bits, before: nat, c: Chunk, final: bool) {
    && e.compBitOff == before && before + e.compBitLen == |s|
    && e.finalHeaderRelBit < e.compBitLen && s[before + e.finalHeaderRelBit] == final
    && (Sound(c) ==> e.rawLen == |Content(c)|)
  }

  lemma EntryDescribes(v: Bits, idx: nat, c: Chunk, final: bool)
    requires WellPlaced(c)
    ensures Describes(EntryFor(|v|, idx, c, final), v + StepBits(|v|, idx, c, final), |v|, c, final)
  {
    hide BitsOf, Connector, Inflate;
    var lead, body := Lead(|v|, idx), Body(c, final);
    var s := v + StepBits(|v|, idx, c, final);
    assert s[|v| + |lead| + c.layout.finalHeaderBit] == body[c.layout.finalHeaderBit];
  }

  /** One turn of the writer. */
  method WriteChunk(w: DeflateBitWriter, idx: nat, rc: ReadyChunk, isFinal: bool, ghost c: Chunk)
    returns (r: Outcome<IndexEntry>)
    requires w.Valid() && Readied(rc, c)
    modifies w
    ensures w.Valid() && w.View() == old(w.View()) + StepBits(|old(w.View())|, idx, c, isFinal)
    ensures var entry := EntryFor(|old(w.View())|, idx, c, isFinal);
            r == if entry.compBitLen > Octets.U32_MAX then Refused(DataTooLarge) else Done(entry)
    ensures r.Done? ==> Describes(r.value, w.View(), |old(w.View())|, c, isFinal)
  {
    hide BitsOf, DeflateBitWriter.View, DeflateBitWriter.Valid, Connector, Body, Trail, Describes;
    ghost var v := w.View();
    EntryDescribes(v, idx, c, isFinal);
    w.UsedIsRemainder();
    var chunkStartBit := w.totalBits;
    w.TotalIsLength();
    var connectorBits := 0;
    if idx > 0 && w.used != 0 {
      AppendEmptyStoredBlockNonFinal(w);
      w.TotalIsLength();
      connectorBits := w.totalBits - chunkStartBit;
    }
    WriteBody(w, rc, isFinal, c);
    w.TotalIsLength();
    assert w.View() == v + StepBits(|v|, idx, c, isFinal);
    var chunkEndBit := w.totalBits;
    var finalHeaderRelBit := connectorBits + rc.layout.finalHeaderBit;
    var compBitLen := chunkEndBit - chunkStartBit;
    if compBitLen > Octets.U32_MAX || finalHeaderRelBit > Octets.U32_MAX {
      return Refused(DataTooLarge);
    }
    return Done(IndexEntry(chunkStartBit, compBitLen, finalHeaderRelBit, rc.rawLen));
  }

  ghost predicate AllReadied(ready: seq<ReadyChunk>, chunks: seq<Chunk>) {
    |ready| == |chunks| && forall i :: 0 <= i < |ready| ==> Readied(ready[i], chunks[i])
  }

  ghost predicate AllPlaced(chunks: seq<Chunk>) {
    forall c :: c in chunks ==> WellPlaced(c)
  }

  ghost predicate EntriesRight(entries: seq<IndexEntry>, chunks: seq<Chunk>, finals: seq<bool>)
    requires |entries| <= |chunks| == |finals| && AllPlaced(chunks)
  {
    forall i :: 0 <= i < |entries| ==> entries[i] == EntryFor(|Joined(chunks, finals, i)|, i, chunks[i], finals[i])
  }

  /** The lengths of the first `k` entries have a field of 32 bits. */
  ghost predicate FieldsFit(chunks: seq<Chunk>, finals: seq<bool>, k: nat)
    requires k <= |chunks| == |finals| && AllPlaced(chunks)
  {
    forall i :: 0 <= i < k ==>
      EntryFor(|Joined(chunks, finals, i)|, i, chunks[i], finals[i]).compBitLen <= Octets.U32_MAX
  }

  /** Every chunk in index order; refused exactly when a length has no field. */
  method WriteChunks(w: DeflateBitWriter, ready: seq<ReadyChunk>, finals: seq<bool>, ghost chunks: seq<Chunk>)
    returns (r: Outcome<seq<IndexEntry>>)
    requires w.Valid() && w.View() == []
    requires AllReadied(ready, chunks) && AllPlaced(chunks) && |finals| == |ready|
    modifies w
    ensures w.Valid()
    ensures r.Done? <==> FieldsFit(chunks, finals, |chunks|)
    ensures r.Done? ==> |r.value| == |chunks| && EntriesRight(r.value, chunks, finals)
    ensures r.Done? ==> w.View() == Joined(chunks, finals, |chunks|)
  {
    hide DeflateBitWriter.View, DeflateBitWriter.Valid, StepBits, EntryFor, Readied, WellPlaced, Joined, EntriesRight;
    hide AllReadied;
    var entries: seq<IndexEntry> := [];
    SameCount(ready, chunks);
    NothingJoined(chunks, finals);
    for i := 0 to |ready|
      invariant w.Valid() && w.View() == Joined(chunks, finals, i)
      invariant |entries| == i && EntriesRight(entries, chunks, finals) && FieldsFit(chunks, finals, i)
    {
      OneReadied(ready, chunks, i);
      var entry := WriteChunk(w, i, ready[i], finals[i], chunks[i]);
      if entry.Refused? {
        return Refused(entry.error);
      }
      EntryAdded(entries, chunks, finals, entry.value);
      entries := entries + [entry.value];
    }
    return Done(entries);
  }

  lemma SameCount(ready: seq<ReadyChunk>, chunks: seq<Chunk>)
    requires AllReadied(ready, chunks)
    ensures |ready| == |chunks|
  {
  }

  lemma OneReadied(ready: seq<ReadyChunk>, chunks: seq<Chunk>, i: nat)
    requires AllReadied(ready, chunks) && AllPlaced(chunks) && i < |chunks|
    ensures Readied(ready[i], chunks[i]) && WellPlaced(chunks[i])
  {
    hide Readied, WellPlaced;
  }

  lemma NothingJoined(chunks: seq<Chunk>, finals: seq<bool>)
    requires |chunks| == |finals| && AllPlaced(chunks)
    ensures Joined(chunks, finals, 0) == [] && EntriesRight([], chunks, finals)
  {
  }

  lemma EntryAdded(entries: seq<IndexEntry>, chunks: seq<Chunk>, finals: seq<bool>, entry: IndexEntry)
    requires |entries| < |chunks| == |finals| && AllPlaced(chunks) && EntriesRight(entries, chunks, finals)
    requires WellPlaced(chunks[|entries|])
    requires entry == EntryFor(|Joined(chunks, finals, |entries|)|, |entries|, chunks[|entries|], finals[|entries|])
    ensures EntriesRight(entries + [entry], chunks, finals)
    ensures var before := Joined(chunks, finals, |entries|);
            Joined(chunks, finals, |entries| + 1)
            == before + StepBits(|before|, |entries|, chunks[|entries|], finals[|entries|])
  {
    hide EntryFor, StepBits, WellPlaced;
  }

  /** The whole output: every chunk, then the last byte. With no chunk at all the stream is the compressed
      empty input, and there is no index. */
  method WriteStream(w: DeflateBitWriter, ready: seq<ReadyChunk>, finals: seq<bool>, empty: seq<Byte>,
                     ghost chunks: seq<Chunk>)
    returns (r: Outcome<seq<IndexEntry>>)
    requires w.Valid() && w.View() == []
    requires AllReadied(ready, chunks) && AllPlaced(chunks) && |finals| == |ready|
    requires Inflate(BitsOf(empty)).Some? && Inflate(BitsOf(empty)).value.out == []
    modifies w
    ensures r.Done? <==> FieldsFit(chunks, finals, |chunks|)
    ensures r.Done? ==> |r.value| == |chunks| && EntriesRight(r.value, chunks, finals)
    ensures r.Done? && chunks != [] ==>
              var j := Joined(chunks, finals, |chunks|);
              BitsOf(w.sink) == j + Zeros(PadTo8(|j|))
    ensures r.Done? && chunks == [] ==> Inflate(BitsOf(w.sink)).Some? && Inflate(BitsOf(w.sink)).value.out == []
  {
    hide BitsOf, DeflateBitWriter.View, DeflateBitWriter.Valid, Joined, EntriesRight, Inflate, WellPlaced, FieldsFit;
    r := WriteChunks(w, ready, finals, chunks);
    if r.Refused? {
      return;
    }
    if r.value == [] {
      NothingJoined(chunks, finals);
      WriteEmpty(w, empty);
    } else {
      w.Finish();
    }
  }

  method WriteEmpty(w: DeflateBitWriter, empty: seq<Byte>)
    requires w.Valid() && w.View() == []
    requires Inflate(BitsOf(empty)).Some? && Inflate(BitsOf(empty)).value.out == []
    modifies w
    ensures Inflate(BitsOf(w.sink)).Some? && Inflate(BitsOf(w.sink)).value.out == []
  {
    hide BitsOf, DeflateBitWriter.View, DeflateBitWriter.Valid, InflateFrom, LayoutFrom;
    ghost var s := BitsOf(empty);
    InflateLayout(s, 0, []);
    EmptyHasNoBits(empty);
    var layout := Walker.ParseDeflateStreamLayout(empty);
    ghost var r := Inflate(s).value;
    var _ := WriteChunkBitsWithFinalOverride(w, empty, layout.value, true);
    ghost var view := w.View();
    assert view == s[..r.layout.endBit];
    w.Finish();
    KeepsMeaning(s, BitsOf(w.sink), r);
  }

  lemma EmptyHasNoBits(bytes: seq<Byte>)
    requires Inflate(BitsOf(bytes)).Some?
    ensures bytes != []
  {
  }
}
