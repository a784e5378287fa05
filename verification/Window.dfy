/** The decode producer: it reads the compressed stream once, keeps only a sliding window of it, and
    prepares every indexed chunk from that window. */
module Window {
  import opened Bits
  import opened ChunkIndex
  import opened Extract

  const READ_BYTES: nat := 256 * 1024

  /** The compressed input. A read hands out any non-empty part of what was asked for until the end. */
  class Source {
    const data: seq<Byte>
    var pos: nat

    constructor (data: seq<Byte>)
      ensures this.data == data && pos == 0
    {
      this.data := data;
      pos := 0;
    }

    method Read(max: nat) returns (chunk: seq<Byte>)
      requires pos <= |data| && max > 0
      modifies this
      ensures old(pos) <= pos <= |data| && chunk == data[old(pos)..pos]
      ensures if old(pos) < |data| then 0 < |chunk| <= max else chunk == []
    {
      if pos == |data| {
        return [];
      }
      var n: nat :| 0 < n <= max && n <= |data| - pos;
      chunk := data[pos..pos + n];
      pos := pos + n;
    }
  }

  datatype ProducerError = SizeMismatch | Unprepared(error: ExtractError)

  datatype Produced = Chunks(prepared: seq<seq<Byte>>) | ProducerFailed(error: ProducerError)

  /** Where the window is before entry `k`: how many bytes have been dropped in front, and how many have been read. */
  datatype Place = Place(dropped: nat, read: nat)

  function PlaceAt(entries: seq<IndexEntry>, k: nat): (r: Place)
    requires k <= |entries|
    ensures r.dropped <= r.read
  {
    if k == 0 then Place(0, 0)
    else
      var p := PlaceAt(entries, k - 1);
      var e := Clipped(entries[k - 1], p.dropped);
      var read := Max(p.read, ByteCount(e.compBitOff + e.compBitLen));
      Place(if k < |entries| then Max(p.dropped, Min(entries[k].compBitOff / 8, read)) else p.dropped, read)
  }

  /** An entry that starts in front of the window is taken to start with it. */
  function Clipped(e: IndexEntry, dropped: nat): IndexEntry {
    e.(compBitOff := Max(e.compBitOff, 8 * dropped))
  }

  /** The entry as the producer treats it. */
  function Effective(entries: seq<IndexEntry>, k: nat): IndexEntry
    requires k < |entries|
  {
    Clipped(entries[k], PlaceAt(entries, k).dropped)
  }

  /** The bytes of the stream that the first `k` entries reach into. */
  function Needed(entries: seq<IndexEntry>, k: nat): nat
    requires k <= |entries|
  {
    if k == 0 then 0
    else Max(Needed(entries, k - 1), ByteCount(entries[k - 1].compBitOff + entries[k - 1].compBitLen))
  }

  function Min(a: nat, b: nat): nat {
    if a < b then a else b
  }

  function Max(a: nat, b: nat): nat {
    if a < b then b else a
  }

  /** The prepared bytes are what preparing from the whole stream would give. */
  ghost predicate PreparedRight(bytes: seq<Byte>, s: Bits, e: IndexEntry) {
    var r := PreparedBits(s, e);
    r.Cut? && BitsOf(bytes) == PaddedRange(r.value, 0, |r.value|)
  }

  /** Preparing a chunk from a window at its relative position is preparing it from the whole stream. */
  lemma WindowPrepares(s: Bits, d: nat, m: nat, e: IndexEntry)
    requires 8 * d <= e.compBitOff && e.compBitOff + e.compBitLen <= 8 * m <= |s|
    ensures PreparedBits(s[8 * d..8 * m], e.(compBitOff := e.compBitOff - 8 * d)) == PreparedBits(s, e)
  {
    hide FirstStream, ConnectorBits;
    var rel, w := e.(compBitOff := e.compBitOff - 8 * d), s[8 * d..8 * m];
    assert rel.compBitOff % 8 == e.compBitOff % 8;
    var r := ChunkRange(e);
    if r.Cut? {
      assert ChunkRange(rel) == Cut(r.value.(start := r.value.start - 8 * d));
      SliceOfSlice(s, 8 * d, 8 * m, r.value.start - 8 * d, r.value.start - 8 * d + r.value.len);
    }
  }

  lemma OutOfReach(s: Bits, e: IndexEntry)
    requires e.compBitOff + e.compBitLen > |s|
    ensures PreparedBits(s, e).CutFailed?
  {
    hide FirstStream;
  }

  /** Fills the window up to what the next entry needs. */
  method FillTo(source: Source, window0: seq<Byte>, required: nat, ghost dropped: nat)
    returns (window: seq<Byte>, ok: bool)
    requires dropped <= source.pos <= |source.data| && window0 == source.data[dropped..source.pos]
    modifies source
    ensures source.pos <= |source.data| && dropped <= source.pos && window == source.data[dropped..source.pos]
    ensures ok <==> dropped + required <= |source.data|
    ensures ok ==> source.pos == Max(old(source.pos), dropped + required)
  {
    window := window0;
    while |window| < required
      invariant dropped <= source.pos <= |source.data| && window == source.data[dropped..source.pos]
      invariant source.pos == old(source.pos) || source.pos <= dropped + required
      invariant old(source.pos) <= source.pos
      decreases |source.data| - source.pos
    {
      var remaining := required - |window|;
      var chunk := source.Read(if remaining < READ_BYTES then remaining else READ_BYTES);
      if chunk == [] {
        return window, false;
      }
      window := window + chunk;
    }
    return window, true;
  }

  /** Reads on to the recorded size and checks that the stream ends there. */
  method ReadRest(source: Source, compressedSize: nat) returns (ok: bool)
    requires source.pos <= |source.data|
    modifies source
    ensures ok <==> |source.data| == Max(old(source.pos), compressedSize)
  {
    while source.pos < compressedSize
      invariant old(source.pos) <= source.pos <= |source.data|
      invariant source.pos == old(source.pos) || source.pos <= compressedSize
      decreases |source.data| - source.pos
    {
      var remaining := compressedSize - source.pos;
      var chunk := source.Read(if remaining < READ_BYTES then remaining else READ_BYTES);
      if chunk == [] {
        return false;
      }
    }
    var trailing := source.Read(1);
    return trailing == [];
  }

  /** On an index with monotone offsets the window drops nothing that is still needed. */
  lemma {:induction false} MonotoneKeeps(entries: seq<IndexEntry>, k: nat)
    requires Monotone(entries) && k <= |entries|
    ensures PlaceAt(entries, k).read == Needed(entries, k)
    ensures k < |entries| ==>
              8 * PlaceAt(entries, k).dropped <= entries[k].compBitOff && Effective(entries, k) == entries[k]
  {
    hide ByteCount;
    if k > 0 {
      MonotoneKeeps(entries, k - 1);
    }
  }

  /** What the producer accepts: every entry, clipped to the window, can be prepared, and the stream ends where the
      index and its entries say. */
  ghost predicate Accepts(data: seq<Byte>, entries: seq<IndexEntry>, compressedSize: nat) {
    && (forall i :: 0 <= i < |entries| ==> PreparedBits(BitsOf(data), Effective(entries, i)).Cut?)
    && |data| == Max(PlaceAt(entries, |entries|).read, compressedSize)
  }

  /** The sliding window changes nothing: on an index with monotone offsets every chunk comes out as if it had been
      prepared from the whole stream. On any other index an entry that starts in front of the window is prepared as if
      it started with it. */
  method Produce(source: Source, entries: seq<IndexEntry>, compressedSize: nat) returns (r: Produced)
    requires source.pos == 0
    modifies source
    ensures r.Chunks? <==> Accepts(source.data, entries, compressedSize)
    ensures r.Chunks? ==> |r.prepared| == |entries|
    ensures r.Chunks? ==>
              forall i :: 0 <= i < |entries| ==>
                PreparedRight(r.prepared[i], BitsOf(source.data), Effective(entries, i))
    ensures r.Chunks? && Monotone(entries) ==>
              forall i :: 0 <= i < |entries| ==> PreparedRight(r.prepared[i], BitsOf(source.data), entries[i])
    ensures Monotone(entries) ==>
              (r.Chunks? <==>
                && (forall i :: 0 <= i < |entries| ==> PreparedBits(BitsOf(source.data), entries[i]).Cut?)
                && |source.data| == Max(Needed(entries, |entries|), compressedSize))
  {
    r := Prepare(source, entries, compressedSize);
    if Monotone(entries) {
      forall i | 0 <= i <= |entries|
        ensures PlaceAt(entries, i).read == Needed(entries, i)
              && (i < |entries| ==> Effective(entries, i) == entries[i])
      {
        MonotoneKeeps(entries, i);
      }
    }
  }

  function Relative(e: IndexEntry, dropped: nat): nat {
    if e.compBitOff > 8 * dropped then e.compBitOff - 8 * dropped else 0
  }

  lemma ClippedIs(e: IndexEntry, dropped: nat)
    ensures var c := Clipped(e, dropped);
            && c.compBitOff == 8 * dropped + Relative(e, dropped) && c.compBitLen == e.compBitLen
            && c.(compBitOff := c.compBitOff - 8 * dropped) == e.(compBitOff := Relative(e, dropped))
  {
  }

  lemma FirstPlace(entries: seq<IndexEntry>)
    ensures PlaceAt(entries, 0) == Place(0, 0)
  {
  }

  lemma ReachIs(dropped: nat, bits: nat)
    ensures forall m: nat :: dropped + ByteCount(bits) <= m <==> 8 * dropped + bits <= 8 * m
  {
  }

  lemma NextPlace(entries: seq<IndexEntry>, k: nat, dropped: nat, read: nat, read': nat)
    requires k < |entries| && PlaceAt(entries, k) == Place(dropped, read)
    requires read' == Max(read, dropped + ByteCount(Relative(entries[k], dropped) + entries[k].compBitLen))
    ensures PlaceAt(entries, k + 1) ==
            if k + 1 < |entries| && entries[k + 1].compBitOff / 8 > dropped
            then Place(dropped + Min(entries[k + 1].compBitOff / 8 - dropped, read' - dropped), read')
            else Place(dropped, read')
  {
  }

  /** The loop of the producer. */
  method Prepare(source: Source, entries: seq<IndexEntry>, compressedSize: nat) returns (r: Produced)
    requires source.pos == 0
    modifies source
    ensures r.Chunks? <==> Accepts(source.data, entries, compressedSize)
    ensures r.Chunks? ==> |r.prepared| == |entries|
    ensures r.Chunks? ==>
              forall i :: 0 <= i < |entries| ==>
                PreparedRight(r.prepared[i], BitsOf(source.data), Effective(entries, i))
  {
    hide BitsOf, PreparedBits, PlaceAt, Clipped, ByteCount;
    ghost var s := BitsOf(source.data);
    var window: seq<Byte> := [];
    var dropped := 0;
    var prepared: seq<seq<Byte>> := [];
    FirstPlace(entries);
    for idx := 0 to |entries|
      invariant dropped <= source.pos <= |source.data| && window == source.data[dropped..source.pos]
      invariant PlaceAt(entries, idx) == Place(dropped, source.pos)
      invariant |prepared| == idx && forall i :: 0 <= i < idx ==> PreparedRight(prepared[i], s, Effective(entries, i))
    {
      var entry := entries[idx];
      ghost var e := Effective(entries, idx);
      ClippedIs(entry, dropped);
      var relativeStartBit := Relative(entry, dropped);
      var required := ByteCount(relativeStartBit + entry.compBitLen);
      ReachIs(dropped, relativeStartBit + entry.compBitLen);
      ghost var read := source.pos;
      var filled;
      window, filled := FillTo(source, window, required, dropped);
      if !filled {
        OutOfReach(s, e);
        return ProducerFailed(SizeMismatch);
      }
      NextPlace(entries, idx, dropped, read, source.pos);
      BitsOfSlice(source.data, dropped, source.pos);
      WindowPrepares(s, dropped, source.pos, e);
      var chunk := PrepareIndexedChunkForDecode(window, entry.(compBitOff := relativeStartBit));
      if chunk.CutFailed? {
        return ProducerFailed(Unprepared(chunk.error));
      }
      prepared := prepared + [chunk.value];
      if idx + 1 < |entries| {
        var nextKeepByte := entries[idx + 1].compBitOff / 8;
        if nextKeepByte > dropped {
          var drop := if nextKeepByte - dropped < |window| then nextKeepByte - dropped else |window|;
          window := window[drop..];
          dropped := dropped + drop;
        }
      }
    }
    var ended := ReadRest(source, compressedSize);
    if !ended {
      return ProducerFailed(SizeMismatch);
    }
    return Chunks(prepared);
  }
}
