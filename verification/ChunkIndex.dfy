/** The per-chunk index of a joined stream. */
module ChunkIndex {
  /** Where a chunk's bits are, in bits from the start of the stream, and how long its content is. */
  datatype IndexEntry = IndexEntry(compBitOff: nat, compBitLen: nat, finalHeaderRelBit: nat, rawLen: nat)

  predicate Monotone(entries: seq<IndexEntry>) {
    forall i :: 1 <= i < |entries| ==> entries[i - 1].compBitOff <= entries[i].compBitOff
  }
}
