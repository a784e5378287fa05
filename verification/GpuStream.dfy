/** From raw pieces of input to one DEFLATE stream: every piece is compressed on the GPU, and the chunks are joined. */
module GpuStream {
  import opened Options
  import opened Bits
  import opened Format
  import opened Join
  import opened ChunkIndex
  import opened GpuTokens
  import opened GpuChunks
  import BitWriter
  import CodeLengths
  import DynamicPlan
  import Recover
  import StreamWriter

  /** The words of the output buffer for pieces of up to `lenCapacity` octets. */
  function SlotWords(lenCapacity: nat): nat {
    (12 * lenCapacity + 2048 + 31) / 32
  }

  /** What the pieces hold together. */
  function Flatten(pieces: seq<seq<nat>>, k: nat): seq<nat>
    requires k <= |pieces|
  {
    if k == 0 then [] else Flatten(pieces, k - 1) + pieces[k - 1]
  }

  predicate PieceOk(piece: seq<nat>, order: seq<nat>) {
    GpuTokens.Octets(piece) && |piece| < CodeLengths.U32_MAX && AllThreads(order, |piece|)
  }

  /** A chunk that decompresses to the piece. */
  ghost predicate Holds(c: Chunk, piece: seq<nat>) {
    Sound(c) && WellPlaced(c) && Content(c) == piece
  }

  lemma RightHolds(g: GpuChunk, piece: seq<nat>)
    requires Right(g, piece)
    ensures Holds(ChunkOf(g, |piece|), piece)
  {
    hide Sound, Content;
    SoundIsWellPlaced(ChunkOf(g, |piece|));
  }

  /** One piece, in planned codes or in the fixed ones. No piece outgrows its buffer, so nothing is left to the CPU; the
      only failure is a code that would be too long. */
  method CompressPiece(piece: seq<nat>, lenCapacity: nat, segSize: nat, mode: Mode, planned: bool, order: seq<nat>)
    returns (c: Option<Chunk>, ghost error: DynamicPlan.PlanError)
    requires PieceOk(piece, order) && |piece| <= lenCapacity && segSize >= 1
    ensures c.Some? ==> Holds(c.value, piece)
    ensures c.None? ==> planned && NoPlanFor(piece, error)
  {
    hide Right, NoPlanFor, Holds;
    error := DynamicPlan.BadTableSize;
    if planned {
      var r := DynamicChunk(piece, segSize, mode, SlotWords(lenCapacity), order);
      if r.NoPlan? {
        return None, r.error;
      }
      RightHolds(r.chunk, piece);
      c := Some(ChunkOf(r.chunk, |piece|));
    } else {
      var r := FixedChunk(piece, segSize, mode, SlotWords(lenCapacity), order);
      RightHolds(r.value, piece);
      c := Some(ChunkOf(r.value, |piece|));
    }
  }

  ghost predicate AllHold(chunks: seq<Chunk>, pieces: seq<seq<nat>>) {
    |chunks| == |pieces| && forall i :: 0 <= i < |chunks| ==> Holds(chunks[i], pieces[i])
  }

  lemma HeldContents(chunks: seq<Chunk>, pieces: seq<seq<nat>>)
    requires AllHold(chunks, pieces)
    ensures AllSound(chunks)
  {
    hide Sound, Content, WellPlaced;
    forall c | c in chunks
      ensures Sound(c) && WellPlaced(c)
    {
      var i :| 0 <= i < |chunks| && chunks[i] == c;
      assert Holds(chunks[i], pieces[i]);
    }
  }

  lemma {:induction false} ContentsFlatten(chunks: seq<Chunk>, pieces: seq<seq<nat>>, k: nat)
    requires AllHold(chunks, pieces) && AllSound(chunks) && k <= |chunks|
    ensures Contents(chunks, k) == Flatten(pieces, k)
    decreases k
  {
    hide Sound, Content, WellPlaced;
    if k > 0 {
      ContentsFlatten(chunks, pieces, k - 1);
      assert Holds(chunks[k - 1], pieces[k - 1]);
    }
  }

  /** The whole stream: with the last chunk flagged as final, it decompresses to the pieces one behind the other. */
  method CompressStream(pieces: seq<seq<nat>>, lenCapacity: nat, segSize: nat, mode: Mode, planned: bool,
      orders: seq<seq<nat>>, empty: seq<Byte>)
    returns (index: Option<StreamWriter.Outcome<seq<IndexEntry>>>, sink: seq<Byte>, ghost chunks: seq<Chunk>,
             ghost failed: nat, ghost error: DynamicPlan.PlanError)
    requires |orders| == |pieces| && segSize >= 1
    requires forall i :: 0 <= i < |pieces| ==> PieceOk(pieces[i], orders[i]) && |pieces[i]| <= lenCapacity
    requires Inflate(BitsOf(empty)).Some? && Inflate(BitsOf(empty)).value.out == []
    ensures index.None? ==> planned && failed < |pieces| && NoPlanFor(pieces[failed], error)
    ensures index.Some? ==> AllHold(chunks, pieces)
    ensures index.Some? && index.value.Done? ==>
              Inflate(BitsOf(sink)).Some? && Inflate(BitsOf(sink)).value.out == Flatten(pieces, |pieces|)
  {
    hide Holds, NoPlanFor, PieceOk, Inflate, BitsOf, Sound, Joined, Contents, StreamWriter.AllReadied, WellPlaced;
    hide StreamWriter.EntriesRight, StreamWriter.FieldsFit;
    index, sink, failed, error := None, [], 0, DynamicPlan.BadTableSize;
    var made: seq<Chunk> := [];
    chunks := [];
    for i := 0 to |pieces|
      invariant AllHold(made, pieces[..i])
    {
      var c, e := CompressPiece(pieces[i], lenCapacity, segSize, mode, planned, orders[i]);
      if c.None? {
        failed, error := i, e;
        return;
      }
      made := made + [c.value];
    }
    assert pieces[..|pieces|] == pieces;
    chunks := made;
    HeldContents(made, pieces);
    ContentsFlatten(made, pieces, |pieces|);
    var ready := Recover.ReadyAll(made);
    StreamWriter.SameCount(ready, made);
    var w := new BitWriter.DeflateBitWriter();
    var r := StreamWriter.WriteStream(w, ready, LastOnly(|made|), empty, made);
    index, sink := Some(r), w.sink;
    if r.Done? && made != [] {
      JoinPreservesMeaning(made, Zeros(PadTo8(|Joined(made, LastOnly(|made|), |made|)|)));
    }
  }
}
