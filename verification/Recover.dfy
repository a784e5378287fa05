/** End to end: what the stream writer joins and indexes, the indexed decoder takes apart and puts in order again. */
module Recover {
  import opened Bits
  import opened Format
  import opened Join
  import opened ChunkIndex
  import opened Totals
  import BitWriter
  import Extract
  import IndexLink
  import Czdi
  import Octets
  import StreamWriter
  import Window
  import Crc
  import Decode = ParallelDecode

  // ---- From the joined stream to the prepared chunks ---------------------------------------------

  /** The end of chunk `i` in the joined stream. */
  lemma EntryEnd(chunks: seq<Chunk>, finals: seq<bool>, entries: seq<IndexEntry>, i: nat)
    requires i < |entries| == |chunks| == |finals| && StreamWriter.AllPlaced(chunks)
    requires StreamWriter.EntriesRight(entries, chunks, finals)
    ensures entries[i].compBitOff + entries[i].compBitLen
          == |Joined(chunks, finals, i + 1)| <= |Joined(chunks, finals, |chunks|)|
  {
    hide StepBits, WellPlaced;
    JoinedPrefix(chunks, finals, i + 1, |chunks|);
  }

  lemma ByteCountGrows(a: nat, b: nat)
    requires a <= b
    ensures ByteCount(a) <= ByteCount(b)
  {
  }

  lemma {:induction false} NeededFits(chunks: seq<Chunk>, finals: seq<bool>, entries: seq<IndexEntry>, k: nat)
    requires k <= |entries| == |chunks| == |finals| && StreamWriter.AllPlaced(chunks)
    requires StreamWriter.EntriesRight(entries, chunks, finals)
    ensures Window.Needed(entries, k) <= ByteCount(|Joined(chunks, finals, |chunks|)|)
  {
    hide StreamWriter.EntriesRight, WellPlaced, Joined, ByteCount;
    if k > 0 {
      NeededFits(chunks, finals, entries, k - 1);
      EntryEnd(chunks, finals, entries, k - 1);
      ByteCountGrows(|Joined(chunks, finals, k)|, |Joined(chunks, finals, |chunks|)|);
    }
  }

  /** Chunk `i` is cut out of the stream with its own bits. */
  lemma CutsOut(chunks: seq<Chunk>, finals: seq<bool>, entries: seq<IndexEntry>, t: Bits, i: nat)
    requires AllSound(chunks) && i < |entries| == |chunks| == |finals| && StreamWriter.AllPlaced(chunks)
    requires StreamWriter.EntriesRight(entries, chunks, finals) && Joined(chunks, finals, |chunks|) <= t
    ensures Extract.PreparedBits(t, entries[i]).Cut?
    ensures forall bytes :: Window.PreparedRight(bytes, t, entries[i]) ==> Gives(bytes, Content(chunks[i]))
  {
    hide Sound, Joined, Extract.PreparedBits, StreamWriter.EntryFor, Inflate, Content;
    Extract.ExtractedMeaning(chunks, finals, i, t, []);
    var r := Extract.PreparedBits(t, entries[i]);
    forall bytes | Window.PreparedRight(bytes, t, entries[i])
      ensures Gives(bytes, Content(chunks[i]))
    {
      var padding := Zeros(PadTo8(|r.value|));
      Extract.ExtractedMeaning(chunks, finals, i, t, padding);
      assert r.value[0..0 + |r.value|] == r.value;
    }
  }

  /** The bytes are a DEFLATE stream of `content`. */
  ghost predicate Gives(bytes: seq<Byte>, content: seq<nat>) {
    Inflate(BitsOf(bytes)).Some? && Inflate(BitsOf(bytes)).value.out == content
  }

  lemma OffsetsMonotone(chunks: seq<Chunk>, finals: seq<bool>, entries: seq<IndexEntry>)
    requires |entries| == |chunks| == |finals| && StreamWriter.AllPlaced(chunks)
    requires StreamWriter.EntriesRight(entries, chunks, finals)
    ensures Monotone(entries)
  {
    hide StreamWriter.EntriesRight, StreamWriter.AllPlaced;
    forall i | 1 <= i < |entries|
      ensures entries[i - 1].compBitOff <= entries[i].compBitOff
    {
      IndexLink.OffsetsOrdered(entries, chunks, finals, i);
    }
  }

  /** What the workers hand to the writer. */
  method ReadyAll(chunks: seq<Chunk>) returns (ready: seq<StreamWriter.ReadyChunk>)
    requires AllSound(chunks)
    ensures StreamWriter.AllReadied(ready, chunks)
  {
    hide Sound, WellPlaced, StreamWriter.Readied;
    ready := [];
    for i := 0 to |chunks|
      invariant |ready| == i && forall k :: 0 <= k < i ==> StreamWriter.Readied(ready[k], chunks[k])
    {
      SoundIsClean(chunks[i]);
      var rc := StreamWriter.ReadyUp(chunks[i]);
      ready := ready + [rc.value];
    }
  }

  lemma SoundIsClean(c: Chunk)
    requires Sound(c) && WellPlaced(c)
    ensures c.gpu ==> CleanPadding(c.bytes, c.layout.endBit)
  {
    hide CleanPadding;
  }

  // ---- The recorded index ------------------------------------------------------------------------

  function RawLens(entries: seq<IndexEntry>): (r: seq<nat>)
    ensures |r| == |entries| && forall i :: 0 <= i < |r| ==> r[i] == entries[i].rawLen
  {
    seq(|entries|, i requires 0 <= i < |entries| => entries[i].rawLen)
  }

  /** The lengths are those of what the chunks decompress to. */
  ghost predicate LengthsOf(rawLens: seq<nat>, chunks: seq<Chunk>)
    requires AllSound(chunks)
  {
    |rawLens| == |chunks| && forall i :: 0 <= i < |chunks| ==> rawLens[i] == |Content(chunks[i])|
  }

  lemma RecordedLengths(entries: seq<IndexEntry>, chunks: seq<Chunk>, finals: seq<bool>)
    requires AllSound(chunks) && |entries| == |chunks| == |finals| && StreamWriter.AllPlaced(chunks)
    requires StreamWriter.EntriesRight(entries, chunks, finals)
    ensures LengthsOf(RawLens(entries), chunks)
  {
    hide Joined, StepBits, Lead, Inflate;
  }

  /** Adding up the recorded lengths gives the places of the chunks in the input. */
  lemma {:induction false} PlacesInInput(rawLens: seq<nat>, chunks: seq<Chunk>, i: nat)
    requires AllSound(chunks) && LengthsOf(rawLens, chunks) && i <= |chunks|
    ensures Total(rawLens[..i]) == |Contents(chunks, i)|
  {
    hide Sound, Content;
    if i > 0 {
      PlacesInInput(rawLens, chunks, i - 1);
      assert rawLens[..i][..i - 1] == rawLens[..i - 1];
    }
  }

  /** The ranges that the decoder computes are those of the chunks in the input. */
  ghost predicate RangesOf(offsets: Decode.Offsets, chunks: seq<Chunk>)
    requires AllSound(chunks)
  {
    && offsets.Offsets? && |offsets.at| == |chunks|
    && forall i :: 0 <= i < |chunks| ==> offsets.at[i] == |Contents(chunks, i)|
  }

  /** What has a field in the index has one that holds it. */
  ghost predicate HasFields(x: Czdi.Index, chunks: seq<Chunk>)
    requires AllSound(chunks)
  {
    && x.chunkSize <= Octets.U32_MAX && |chunks| <= Octets.U32_MAX
    && x.uncompressedSize <= Octets.U64_MAX && 8 * x.compressedSize <= Octets.U64_MAX
    && forall i :: 0 <= i < |chunks| ==> |Content(chunks[i])| <= Octets.U32_MAX
  }

  /** The recorded bit lengths and header bits fit, because the writer refuses those that do not. */
  lemma RecordedFit(x: Czdi.Index, chunks: seq<Chunk>, finals: seq<bool>)
    requires AllSound(chunks) && |x.entries| == x.chunkCount == |chunks| == |finals| && StreamWriter.AllPlaced(chunks)
    requires StreamWriter.EntriesRight(x.entries, chunks, finals)
    requires StreamWriter.FieldsFit(chunks, finals, |chunks|)
    requires LengthsOf(RawLens(x.entries), chunks) && |Joined(chunks, finals, |chunks|)| <= 8 * x.compressedSize
    requires HasFields(x, chunks)
    ensures Czdi.Typed(x)
  {
    hide Joined, StepBits, Sound, Content, WellPlaced;
    forall i | 0 <= i < |chunks|
      ensures Czdi.EntryTyped(x.entries[i])
    {
      JoinedPrefix(chunks, finals, i, |chunks|);
      assert WellPlaced(chunks[i]);
      StreamWriter.EntryDescribes(Joined(chunks, finals, i), i, chunks[i], finals[i]);
    }
  }

  /** The index that the writer returns. */
  function IndexOf(entries: seq<IndexEntry>, chunkSize: nat, inputBytes: nat, outputBytes: nat): Czdi.Index {
    Czdi.Index(chunkSize, |entries|, inputBytes, outputBytes, entries)
  }

  /** The output ranges from the index. */
  method Ranges(x: Czdi.Index, ghost chunks: seq<Chunk>) returns (offsets: Decode.Offsets)
    requires AllSound(chunks) && LengthsOf(RawLens(x.entries), chunks)
    requires x.uncompressedSize == |Contents(chunks, |chunks|)|
    ensures x.uncompressedSize <= Octets.U64_MAX ==> RangesOf(offsets, chunks)
  {
    hide Sound, Content, Contents;
    var rawLens := RawLens(x.entries);
    offsets := Decode.OutputOffsets(rawLens, x.uncompressedSize);
    PlacesInInput(rawLens, chunks, |chunks|);
    assert rawLens[..|chunks|] == rawLens;
    forall i | 0 <= i < |chunks|
      ensures offsets.Offsets? ==> offsets.at[i] == |Contents(chunks, i)|
    {
      PlacesInInput(rawLens, chunks, i);
    }
  }

  /** The stored index, decoded: what is prepared from it for a chunk decompresses to that chunk's content, and its
      lengths and ranges are those of the input. */
  ghost predicate Usable(x: Czdi.Index, prepared: Window.Produced, offsets: Decode.Offsets, chunks: seq<Chunk>)
    requires AllSound(chunks)
  {
    && prepared.Chunks? && |prepared.prepared| == |chunks|
    && (forall i :: 0 <= i < |chunks| ==> Gives(prepared.prepared[i], Content(chunks[i])))
    && LengthsOf(RawLens(x.entries), chunks) && x.uncompressedSize == |Contents(chunks, |chunks|)|
    && RangesOf(offsets, chunks)
  }

  /** Preparing all chunks with the index that was recorded while the stream was written. */
  method PrepareAll(sink: seq<Byte>, x: Czdi.Index, ghost chunks: seq<Chunk>, ghost finals: seq<bool>)
    returns (prepared: Window.Produced)
    requires AllSound(chunks) && |x.entries| == |chunks| == |finals| && StreamWriter.AllPlaced(chunks)
    requires StreamWriter.EntriesRight(x.entries, chunks, finals) && x.compressedSize == |sink|
    requires var j := Joined(chunks, finals, |chunks|); BitsOf(sink) == j + Zeros(PadTo8(|j|))
    ensures prepared.Chunks? && |prepared.prepared| == |chunks|
    ensures forall i :: 0 <= i < |chunks| ==> Gives(prepared.prepared[i], Content(chunks[i]))
  {
    hide Sound, Joined, Inflate, Content, BitsOf, StreamWriter.EntriesRight;
    hide Window.PreparedRight;
    hide Extract.PreparedBits, Window.Needed, Gives, WellPlaced, Window.Accepts, Window.Effective;
    ghost var t := BitsOf(sink);
    OffsetsMonotone(chunks, finals, x.entries);
    NeededFits(chunks, finals, x.entries, |x.entries|);
    forall i | 0 <= i < |x.entries|
      ensures Extract.PreparedBits(t, x.entries[i]).Cut?
      ensures forall bytes :: Window.PreparedRight(bytes, t, x.entries[i]) ==> Gives(bytes, Content(chunks[i]))
    {
      CutsOut(chunks, finals, x.entries, t, i);
    }
    var source := new Window.Source(sink);
    prepared := Window.Produce(source, x.entries, x.compressedSize);
  }

  /** Writing a stream, storing its index, and handing both to the decoder: the index encodes as long as its table has
      a length field, it comes back unchanged, every chunk is prepared, what is prepared for a chunk decompresses to
      that chunk's content, and the output ranges are the chunks' places in the input, whatever the final flags were. */
  method WriteThenPrepare(chunks: seq<Chunk>, finals: seq<bool>, empty: seq<Byte>, chunkSize: nat, inputBytes: nat)
    returns (index: StreamWriter.Outcome<seq<IndexEntry>>, x: Czdi.Index, blob: Czdi.Result<seq<Octets.Octet>>,
             prepared: Window.Produced, offsets: Decode.Offsets)
    requires AllSound(chunks) && chunks != [] && |finals| == |chunks|
    requires inputBytes == |Contents(chunks, |chunks|)|
    requires Inflate(BitsOf(empty)).Some? && Inflate(BitsOf(empty)).value.out == []
    ensures index.Done? ==> x.entries == index.value && x.chunkCount == |chunks| && Monotone(x.entries)
    ensures index.Done? ==> (blob.Success? <==> |Czdi.TableBytes(x.entries)| <= Octets.U32_MAX)
    ensures index.Done? && blob.Success? && HasFields(x, chunks) ==>
              Czdi.Decoded(blob.value) == Czdi.Success(x) && Usable(x, prepared, offsets, chunks)
  {
    hide Sound, Joined, Inflate, Content, BitsOf, StreamWriter.EntriesRight, StreamWriter.AllReadied;
    hide WellPlaced, Gives, Czdi.Typed, Czdi.TableBytes, Czdi.HeaderBytes, Czdi.Decoded, LengthsOf, RangesOf, Contents;
    hide StreamWriter.FieldsFit, HasFields;
    x, blob := Czdi.Index(0, 0, 0, 0, []), Czdi.Failure(Czdi.CountMismatch);
    prepared, offsets := Window.Chunks([]), Decode.Offsets([]);
    var ready := ReadyAll(chunks);
    StreamWriter.SameCount(ready, chunks);
    var w := new BitWriter.DeflateBitWriter();
    index := StreamWriter.WriteStream(w, ready, finals, empty, chunks);
    if index.Refused? {
      return;
    }
    x := IndexOf(index.value, chunkSize, inputBytes, |w.sink|);
    OffsetsMonotone(chunks, finals, x.entries);
    RecordedLengths(x.entries, chunks, finals);
    if HasFields(x, chunks) {
      RecordedFit(x, chunks, finals);
    }
    blob := Czdi.EncodeCzdiV1(x);
    if blob.Failure? {
      return;
    }
    var decoded := Czdi.DecodeCzdiV1(blob.value);
    if decoded != Czdi.Success(x) {
      NotTyped(x, blob.value, decoded);
      return;
    }
    prepared := PrepareAll(w.sink, decoded.value, chunks, finals);
    offsets := Ranges(decoded.value, chunks);
    SizeFits(x, chunks);
  }

  lemma SizeFits(x: Czdi.Index, chunks: seq<Chunk>)
    requires AllSound(chunks)
    ensures HasFields(x, chunks) ==> x.uncompressedSize <= Octets.U64_MAX
  {
    hide Sound, Content;
  }

  /** An index whose fields have their types comes back. */
  lemma NotTyped(x: Czdi.Index, blob: seq<Octets.Octet>, decoded: Czdi.Result<Czdi.Index>)
    requires Czdi.ReadsWritten(blob, decoded) && Czdi.Encodable(x) && decoded != Czdi.Success(x)
    requires blob == Czdi.HeaderBytes(x, Czdi.TableBytes(x.entries)) + Czdi.TableBytes(x.entries)
    ensures !Czdi.Typed(x)
  {
    hide Czdi.Typed, Czdi.TableBytes, Czdi.HeaderBytes;
  }

  // ---- From the prepared chunks to the file ------------------------------------------------------

  function Numbers(bytes: seq<Byte>): (r: seq<nat>)
    ensures |r| == |bytes|
  {
    seq(|bytes|, i requires 0 <= i < |bytes| => bytes[i] as nat)
  }

  lemma {:induction false} FileIsContents(chunks: seq<Chunk>, parts: seq<seq<Byte>>, k: nat)
    requires AllSound(chunks) && k <= |parts| == |chunks|
    requires forall i :: 0 <= i < |parts| ==> Numbers(parts[i]) == Content(chunks[i])
    ensures Numbers(Crc.Concat(parts, k)) == Contents(chunks, k)
  {
    hide Sound, Content;
    if k > 0 {
      FileIsContents(chunks, parts, k - 1);
      var a, b := Crc.Concat(parts, k - 1), parts[k - 1];
      assert Numbers(a + b) == Numbers(a) + Numbers(b);
    }
  }

  /** The round trip: with the lengths that the stored index recorded, when the workers decompress the prepared chunks,
      no run of the decoder has a fault, and where it ends, its file is the input, after any interleaving of workers and
      positional writes. */
  lemma DecodedIsInput(
    chunks: seq<Chunk>, x: Czdi.Index, prepared: Window.Produced, offsets: Decode.Offsets, job: Decode.Job,
    s0: Decode.State, steps: seq<Decode.Step>, s: Decode.State)
    requires AllSound(chunks) && Usable(x, prepared, offsets, chunks)
    requires |job.parts| == |job.prepared| == |chunks| && job.workers >= 1 && job.queueCap >= 1
    requires job.rawLens == RawLens(x.entries) && job.at == offsets.at && job.size == x.uncompressedSize
    requires forall i :: 0 <= i < |chunks| ==> Gives(prepared.prepared[i], Numbers(job.parts[i]))
    requires Decode.Init(job, s0) && Decode.Path(job, s0, steps, s)
    ensures !s.fault
    ensures Decode.Joined(s) && Decode.Drained(job, s) ==> Numbers(s.file) == Contents(chunks, |chunks|)
  {
    hide Sound, Content, Contents, Inflate, BitsOf, Decode.Init, Decode.Path, Decode.Joined, Decode.Drained, Crc.Concat;
    PlacesInInput(job.rawLens, chunks, |chunks|);
    assert job.rawLens[..|chunks|] == job.rawLens;
    forall i | 0 <= i < |chunks|
      ensures job.at[i] == Total(job.rawLens[..i]) && Numbers(job.parts[i]) == Content(chunks[i])
    {
      PlacesInInput(job.rawLens, chunks, i);
    }
    Decode.NoFault(job, s0, steps, s);
    if Decode.Joined(s) && Decode.Drained(job, s) {
      Decode.DecodedInOrder(job, s0, steps, s);
      FileIsContents(chunks, job.parts, |chunks|);
    }
  }
}
