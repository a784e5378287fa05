/** From the writers' octets to the readers: what the encoder side has written is read by the decoder side. */
module ReadBack {
  import opened Bits
  import opened Format
  import opened Canonical
  import opened Octets
  import Cursor
  import D = HuffmanDecoder
  import E = HuffmanEncoder
  import DynamicBlock
  import DynamicHeader
  import Plan = DynamicPlan
  import Walker

  // ---- Octets are bytes --------------------------------------------------------------------------

  lemma LowestBit(o: Octet)
    ensures Bit(o as Byte, 0) == (o % 2 == 1)
  {
  }

  lemma HalfByte(o: Octet)
    ensures o as Byte >> 1 == (o / 2) as Byte
  {
  }

  lemma NextBit(b: Byte, i: nat)
    requires i < 7
    ensures Bit(b, i + 1) == Bit(b >> 1, i)
  {
    if i == 0 {} else if i == 1 {} else if i == 2 {} else if i == 3 {} else if i == 4 {} else if i == 5 {} else {}
  }

  lemma {:induction false} OctetBit(o: Octet, n: nat, i: nat)
    requires i < n <= 8
    ensures NatBits(o, n)[i] == Bit(o as Byte, i)
    decreases n
  {
    hide Bit;
    LowestBit(o);
    if i > 0 {
      OctetBit(o / 2, n - 1, i - 1);
      HalfByte(o);
      NextBit(o as Byte, i - 1);
    }
  }

  lemma OctetIsByte(o: Octet)
    ensures NatBits(o, 8) == BitsOfByte(o as Byte)
  {
    hide Bit, NatBits;
    forall i | 0 <= i < 8
      ensures NatBits(o, 8)[i] == BitsOfByte(o as Byte)[i]
    {
      OctetBit(o, 8, i);
    }
  }

  /** The bits of the writer's octets are the bits of the reader's bytes. */
  lemma {:induction false} OctetsAreBytes(octets: seq<Octet>)
    ensures E.OctetBits(octets) == BitsOf(ToBytes(octets))
  {
    hide NatBits, BitsOf, BitsOfByte;
    if octets == [] {
      NoBytes();
    } else {
      var init, last := octets[..|octets| - 1], octets[|octets| - 1];
      OctetsAreBytes(init);
      OctetIsByte(last);
      assert ToBytes(octets) == ToBytes(init) + [last as Byte];
      BitsOfAppend(ToBytes(init), [last as Byte]);
      BitsOfSingle(last as Byte);
    }
  }

  lemma NoBytes()
    ensures BitsOf(ToBytes([])) == []
  {
  }

  // ---- A message ---------------------------------------------------------------------------------

  /** Reads `n` symbols with the decoder tables. */
  method ReadMessage(cursor: Cursor.DeflateBitCursor, decoder: D.HuffmanDecoder, n: nat, ghost lengths: seq<nat>)
    returns (r: Cursor.Result<seq<nat>>)
    requires D.Represents(decoder, lengths)
    modifies cursor
    ensures Cursor.Agrees(r, cursor.bitPos, E.DecodeMessage(BitsOf(cursor.data), old(cursor.bitPos), lengths, n))
  {
    hide BitsOf, DecodeSymbol, D.Represents;
    ghost var s, p := BitsOf(cursor.data), cursor.bitPos;
    var message: seq<nat> := [];
    for i := 0 to n
      invariant E.DecodeMessage(s, p, lengths, i) == Ok(message, cursor.bitPos)
    {
      var sym := D.DecodeHuffmanSymbol(cursor, decoder, lengths);
      if sym.Failure? {
        FailsLater(s, p, lengths, i + 1, n);
        return Cursor.Failure(sym.error);
      }
      message := message + [sym.value];
    }
    return Cursor.Success(message);
  }

  lemma {:induction false} FailsLater(s: Bits, p: nat, lengths: seq<nat>, i: nat, n: nat)
    requires i <= n && E.DecodeMessage(s, p, lengths, i).Fail?
    ensures E.DecodeMessage(s, p, lengths, n) == E.DecodeMessage(s, p, lengths, i)
    decreases n - i
  {
    hide DecodeSymbol;
    if i < n {
      FailsLater(s, p, lengths, i, n - 1);
    }
  }

  lemma KraftDecodable(lengths: seq<nat>, maxBits: nat)
    requires Kraft(lengths, maxBits) && maxBits <= 15
    ensures Decodable(lengths)
  {
    hide KraftSum;
  }

  /** Canonical Huffman codes, from code lengths to octets and back: codes and decoder tables built from the same
      lengths, and any message, give the message again, and reading stops right behind its last code. */
  method WriteAndReadMessage(lengths: seq<nat>, maxBits: nat, message: seq<nat>)
    returns (r: Cursor.Result<seq<nat>>, end: nat)
    requires maxBits <= 15 && Kraft(lengths, maxBits) && E.Encodable(lengths, message)
    ensures r == Cursor.Success(message) && end == |E.MessageBits(lengths, message)|
  {
    hide Kraft, BitsOf, Zeros, PadTo8, E.MessageBits, E.OctetBits, E.EntryOf, D.Represents, E.DecodeMessage;
    var codes := E.BuildCanonicalCodes(lengths, maxBits);
    var w := new E.BitWriter();
    E.WriteMessage(w, codes.value, message, lengths, maxBits);
    var octets := w.Finish();
    KraftDecodable(lengths, maxBits);
    var decoder := D.BuildHuffmanDecoder(lengths);
    var cursor := new Cursor.DeflateBitCursor(ToBytes(octets));
    ghost var bits := E.MessageBits(lengths, message);
    ghost var padding := Zeros(PadTo8(|bits|));
    OctetsAreBytes(octets);
    assert BitsOf(cursor.data) == [] + bits + padding;
    E.MessageRoundTrip(lengths, maxBits, message, [], padding);
    r := ReadMessage(cursor, decoder.value, |message|, lengths);
    end := cursor.bitPos;
  }

  // ---- A dynamic header --------------------------------------------------------------------------

  /** A planned header, from frequencies to octets and back: behind the three bits of the block header, the tree reader
      builds decoders for exactly the planned lengths, without the zeros at their ends, and stops at `headerBits`. */
  method PlanAndReadTrees(litlenFreq: seq<nat>, distFreq: seq<nat>)
    returns (plan: Plan.PlanResult, decoders: Cursor.Result<Walker.Decoders>, end: nat, ghost lit: seq<nat>,
             ghost dist: seq<nat>, ghost trees: Trees)
    ensures plan.Planned? ==>
              && Plan.ServesLiterals(litlenFreq, lit) && Plan.ServesDistances(distFreq, dist)
              && plan.plan.dynTable == Plan.CodeColumn(lit) + lit + Plan.CodeColumn(dist) + dist
              && DynamicHeader.TrimOf(lit, trees.lit) && DynamicHeader.TrimOf(dist, trees.dist)
              && decoders.Success? && Walker.Represent(decoders.value, trees) && end == plan.plan.headerBits
  {
    hide Kraft, BitsOf, E.OctetBits, Walker.Represent, Format.ReadDynamicTrees, Value;
    hide Plan.ServesLiterals, Plan.ServesDistances, Plan.CodeColumn;
    ghost var h, deep;
    decoders, end, trees := Cursor.Failure(Truncated), 0, Trees([], []);
    plan, h, lit, dist, deep := Plan.BuildDynamicHuffmanPlan(litlenFreq, distFreq);
    if plan.Refused? {
      return;
    }
    var octets := plan.plan.headerBytesPadded;
    var cursor := new Cursor.DeflateBitCursor(ToBytes(octets));
    ghost var s := BitsOf(cursor.data);
    OctetsAreBytes(octets);
    ghost var tail := s[plan.plan.headerBits..];
    assert s == s[..plan.plan.headerBits] + tail;
    DynamicBlock.PlanReadsBack(plan.plan, h, lit, dist, tail);
    var final := cursor.ReadBits(1);
    var btype := cursor.ReadBits(2);
    decoders, trees := Walker.ReadDynamicHuffmanTrees(cursor);
    end := cursor.bitPos;
  }
}
