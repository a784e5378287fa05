/** The index that the stream writer records is one that the index format can carry. */
module IndexLink {
  import opened Join
  import opened StreamWriter
  import opened ChunkIndex
  import Czdi
  import Octets

  lemma OffsetsOrdered(entries: seq<IndexEntry>, chunks: seq<Chunk>, finals: seq<bool>, i: nat)
    requires |entries| <= |chunks| == |finals| && AllPlaced(chunks) && EntriesRight(entries, chunks, finals)
    requires 1 <= i < |entries|
    ensures entries[i - 1].compBitOff <= entries[i].compBitOff
  {
    hide Joined, StepBits, Lead;
    JoinedPrefix(chunks, finals, i - 1, i);
  }

  /** What the writer records is in stream order, so it encodes as long as its table has a length field, and it decodes
      to itself. */
  lemma WriterIndexRoundTrip(x: Czdi.Index, chunks: seq<Chunk>, finals: seq<bool>)
    requires |x.entries| <= |chunks| == |finals| && AllPlaced(chunks) && EntriesRight(x.entries, chunks, finals)
    requires Czdi.Typed(x) && x.chunkCount == |x.entries|
    ensures Monotone(x.entries)
    ensures |Czdi.TableBytes(x.entries)| <= Octets.U32_MAX ==>
              Czdi.Decoded(Czdi.HeaderBytes(x, Czdi.TableBytes(x.entries)) + Czdi.TableBytes(x.entries))
                  == Czdi.Success(x)
  {
    hide Joined, Czdi.TableBytes, Czdi.HeaderBytes, Czdi.Decoded, Czdi.Typed, EntriesRight;
    forall i | 1 <= i < |x.entries|
      ensures x.entries[i - 1].compBitOff <= x.entries[i].compBitOff
    {
      OffsetsOrdered(x.entries, chunks, finals, i);
    }
    if |Czdi.TableBytes(x.entries)| <= Octets.U32_MAX {
      Czdi.CzdiRoundTrip(x, []);
      var s := Czdi.HeaderBytes(x, Czdi.TableBytes(x.entries)) + Czdi.TableBytes(x.entries);
      assert s + [] == s;
    }
  }
}
