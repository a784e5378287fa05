/** Joining independently compressed chunks into one DEFLATE stream. */
module Join {
  import opened Options
  import opened Bits
  import opened Format
  import opened Transport

  /** A compressed chunk with the layout recorded for it. GPU chunks reach the writer prepared for the
      middle of the stream; CPU chunks are adapted while they are written. */
  datatype Chunk = Chunk(bytes: seq<Byte>, layout: Layout, rawLen: nat, gpu: bool)

  /** The bits between the end of the stream and the end of its last byte are clear. */
  predicate CleanPadding(bytes: seq<Byte>, endBit: nat)
    requires endBit <= 8 * |bytes|
  {
    forall i :: endBit <= i < 8 * ByteCount(endBit) ==> !BitAt(bytes, i)
  }

  /** The chunk is a stream of its own, its layout is right, and a GPU chunk has clear padding bits. */
  predicate Sound(c: Chunk) {
    var r := Inflate(BitsOf(c.bytes));
    r.Some? && r.value.layout == c.layout && |r.value.out| == c.rawLen
        && (c.gpu ==> CleanPadding(c.bytes, c.layout.endBit))
  }

  /** What the chunk decompresses to. */
  ghost function Content(c: Chunk): (r: seq<nat>)
    requires Sound(c)
    ensures |r| == c.rawLen
  {
    Inflate(BitsOf(c.bytes)).value.out
  }

  /** An empty stored block behind `n` bits: it ends on a byte boundary. */
  function Connector(n: nat): (s: Bits)
    ensures (n + |s|) % 8 == 0 && |s| == PadTo8(n + 3) + 35
  {
    Zeros(3) + Zeros(PadTo8(n + 3)) + (Zeros(16) + Ones(16))
  }

  /** The chunk's own bits, with the given final flag. */
  function Body(c: Chunk, final: bool): (s: Bits)
    requires c.layout.finalHeaderBit < c.layout.endBit <= 8 * |c.bytes|
    ensures |s| == c.layout.endBit
  {
    BitsOf(c.bytes)[..c.layout.endBit][c.layout.finalHeaderBit := final]
  }

  function Lead(n: nat, idx: nat): Bits {
    if idx > 0 && n % 8 != 0 then Connector(n) else []
  }

  function Trail(c: Chunk, final: bool): Bits {
    if c.gpu && !final && c.layout.endBit % 8 != 0 then Connector(c.layout.endBit) else []
  }

  predicate WellPlaced(c: Chunk) {
    c.layout.finalHeaderBit < c.layout.endBit <= 8 * |c.bytes|
  }

  /** What the writer adds for chunk `idx` behind `n` bits. */
  function StepBits(n: nat, idx: nat, c: Chunk, final: bool): Bits
    requires WellPlaced(c)
  {
    Lead(n, idx) + Body(c, final) + Trail(c, final)
  }

  /** The bits of the first `k` chunks, where chunk `i` carries the final flag `finals[i]`. */
  function Joined(chunks: seq<Chunk>, finals: seq<bool>, k: nat): Bits
    requires k <= |chunks| == |finals| && forall c :: c in chunks ==> WellPlaced(c)
  {
    if k == 0 then []
    else
      var before := Joined(chunks, finals, k - 1);
      before + StepBits(|before|, k - 1, chunks[k - 1], finals[k - 1])
  }

  function LastOnly(n: nat): (f: seq<bool>)
    ensures |f| == n && forall i :: 0 <= i < n ==> f[i] == (i == n - 1)
  {
    seq(n, i => i == n - 1)
  }

  ghost function Contents(chunks: seq<Chunk>, k: nat): seq<nat>
    requires k <= |chunks| && AllSound(chunks)
  {
    if k == 0 then [] else Contents(chunks, k - 1) + Content(chunks[k - 1])
  }

  // ---- Earlier output is only a prefix ----------------------------------------------------------

  lemma {:induction false} CopyBehind(h: seq<nat>, out: seq<nat>, length: nat, distance: nat)
    requires 0 < distance <= |out|
    ensures CopyMatch(h + out, length, distance) == h + CopyMatch(out, length, distance)
    decreases length
  {
    if length > 0 {
      var next := out + [out[|out| - distance]];
      assert h + out + [(h + out)[|h + out| - distance]] == h + next;
      CopyBehind(h, next, length - 1, distance);
    }
  }

  /** Tokens that need no earlier output mean the same behind any earlier output. */
  lemma {:induction false} ExpandBehind(h: seq<nat>, tokens: seq<Token>, out: seq<nat>)
    requires Expand(tokens, out).Some?
    ensures Expand(tokens, h + out) == Some(h + Expand(tokens, out).value)
    decreases |tokens|
  {
    if tokens != [] {
      match tokens[0]
      case Literal(b) =>
        assert h + out + [b] == h + (out + [b]);
        ExpandBehind(h, tokens[1..], out + [b]);
      case Match(length, distance) =>
        CopyBehind(h, out, length, distance);
        ExpandBehind(h, tokens[1..], CopyMatch(out, length, distance));
    }
  }

  // ---- One chunk inside a longer stream ---------------------------------------------------------

  /** A chunk moved by whole bytes with its final flag cleared: decompression goes on behind it. */
  lemma {:induction false} ChunkContinues(s: Bits, t: Bits, d: int, p: nat, h: seq<nat>, out: seq<nat>, r: Inflated)
    requires d % 8 == 0 && 0 <= p + d
    requires InflateFrom(s, p, out) == Some(r)
    requires Same(s, t, d, p, r.layout.finalHeaderBit)
    requires Same(s, t, d, r.layout.finalHeaderBit + 1, r.layout.endBit)
    requires !t[r.layout.finalHeaderBit + d]
    ensures InflateFrom(t, p + d, h + out) == InflateFrom(t, r.layout.endBit + d, h + r.out)
    decreases |s| - p
  {
    hide ReadBlock, Expand;
    var b := ReadBlock(s, p);
    MoveBlock(s, t, d, p, b.next);
    ExpandBehind(h, b.value.tokens, out);
    if !b.value.final {
      ChunkContinues(s, t, d, b.next, h, Expand(b.value.tokens, out).value, r);
    }
  }

  /** A chunk moved by whole bytes unchanged ends the stream. */
  lemma {:induction false} ChunkFinishes(s: Bits, t: Bits, d: int, p: nat, h: seq<nat>, out: seq<nat>, r: Inflated)
    requires d % 8 == 0 && 0 <= p + d
    requires InflateFrom(s, p, out) == Some(r)
    requires Same(s, t, d, p, r.layout.endBit)
    ensures InflateFrom(t, p + d, h + out)
         == Some(Inflated(h + r.out, Layout(r.layout.finalHeaderBit + d, r.layout.endBit + d)))
    decreases |s| - p
  {
    hide ReadBlock, Expand;
    var b := ReadBlock(s, p);
    MoveBlock(s, t, d, p, b.next);
    ExpandBehind(h, b.value.tokens, out);
    assert s[p] == t[p + d];
    if !b.value.final {
      ChunkFinishes(s, t, d, b.next, h, Expand(b.value.tokens, out).value, r);
    }
  }

  /** A stream keeps its meaning as long as its bits up to the end stay. */
  lemma KeepsMeaning(s: Bits, t: Bits, r: Inflated)
    requires Inflate(s) == Some(r) && r.layout.endBit <= |t| && t[..r.layout.endBit] == s[..r.layout.endBit]
    ensures Inflate(t) == Some(r)
  {
    hide InflateFrom;
    var none: seq<nat> := [];
    assert none + none == none;
    forall j | 0 <= j < r.layout.endBit
      ensures s[j] == t[j]
    {
      assert t[..r.layout.endBit][j] == s[..r.layout.endBit][j];
    }
    ChunkFinishes(s, t, 0, 0, [], [], r);
    assert none + r.out == r.out;
  }

  lemma ValueOfZeros(n: nat)
    ensures Value(Zeros(n)) == 0
  {
    if n > 0 {
      assert Zeros(n)[1..] == Zeros(n - 1);
      ValueOfZeros(n - 1);
    }
  }

  lemma ValueOfOnes(n: nat)
    ensures Value(Ones(n)) == Pow2(n) - 1
  {
    if n > 0 {
      assert Ones(n)[1..] == Ones(n - 1);
      ValueOfOnes(n - 1);
    }
  }

  lemma Pow2Of16()
    ensures Pow2(16) == 0x10000
  {
    assert Pow2(4) == 16;
    assert Pow2(8) == 256;
    assert Pow2(12) == 4096;
  }

  lemma LengthFieldBits()
    ensures BitsOfByte(0x00) + BitsOfByte(0x00) == Zeros(16)
    ensures BitsOfByte(0xff) + BitsOfByte(0xff) == Ones(16)
  {
    hide BitsOfByte;
    ConstantByteBits();
  }

  lemma ConnectorParts(n: nat, v: Bits)
    ensures var z, f := BitsOfByte(0x00), BitsOfByte(0xff);
            v + (Zeros(3) + Zeros(PadTo8(n + 3))) + z + z + f + f == v + Connector(n)
  {
    hide BitsOfByte, PadTo8, Zeros, Ones;
    var z, f, p := BitsOfByte(0x00), BitsOfByte(0xff), v + (Zeros(3) + Zeros(PadTo8(n + 3)));
    LengthFieldBits();
    assert p + z + z + f + f == p + ((z + z) + (f + f));
    assert p + ((z + z) + (f + f)) == v + (Zeros(3) + Zeros(PadTo8(n + 3)) + ((z + z) + (f + f)));
  }

  lemma ConnectorShape(n: nat)
    ensures var c := Connector(n); var k := |c|;
            !c[0] && c[1..3] == Zeros(2) && c[k - 32..k - 16] == Zeros(16) && c[k - 16..] == Ones(16)
  {
  }

  lemma ConnectorEnd(p: nat, n: nat)
    requires p % 8 == n % 8
    ensures AlignToByte(p + 3) + 32 == p + |Connector(n)|
  {
    hide Connector;
    SameResidue(p + 3, n + 3);
  }

  lemma SameResidue(a: nat, b: nat)
    requires a % 8 == b % 8
    ensures AlignToByte(a) == a + PadTo8(b)
  {
  }

  /** Where the fields of a connector lie. */
  lemma ConnectorFields(s: Bits, p: nat, n: nat, a: nat)
    requires p + |Connector(n)| <= |s| && s[p..p + |Connector(n)|] == Connector(n)
    requires a + 32 == p + |Connector(n)|
    ensures !s[p] && s[p + 1..p + 3] == Zeros(2)
    ensures s[a..a + 16] == Zeros(16) && s[a + 16..a + 32] == Ones(16)
  {
    hide Connector, PadTo8, Zeros, Ones;
    var k := |Connector(n)|;
    ConnectorShape(n);
    assert s[p] == s[p..p + k][0];
    SliceOfSlice(s, p, p + k, 1, 3);
    SliceOfSlice(s, p, p + k, k - 32, k - 16);
    SliceOfSlice(s, p, p + k, k - 16, k);
  }

  /** A connector is an empty block that does not end the stream. */
  lemma ConnectorBlock(s: Bits, p: nat, n: nat)
    requires p % 8 == n % 8 && p + |Connector(n)| <= |s| && s[p..p + |Connector(n)|] == Connector(n)
    ensures ReadBlock(s, p) == Ok(Block(false, []), p + |Connector(n)|)
  {
    hide Connector, Value, AlignToByte, Pow2, StoredTokens;
    var a := AlignToByte(p + 3);
    ConnectorEnd(p, n);
    ConnectorFields(s, p, n, a);
    ValueOfZeros(2);
    ValueOfZeros(16);
    ValueOfOnes(16);
    Pow2Of16();
    assert ReadBits(s, p + 1, 2) == Ok(0, p + 3);
    assert ReadBits(s, a, 16) == Ok(0, a + 16);
    assert ReadBits(s, a + 16, 16) == Ok(0xFFFF, a + 32);
    assert StoredTokens(s, a + 32, 0) == [];
    assert ReadStored(s, p + 3) == Ok([], a + 32);
  }

  lemma ConnectorSkips(s: Bits, p: nat, n: nat, out: seq<nat>)
    requires p % 8 == n % 8 && p + |Connector(n)| <= |s| && s[p..p + |Connector(n)|] == Connector(n)
    ensures InflateFrom(s, p, out) == InflateFrom(s, p + |Connector(n)|, out)
  {
    hide Connector, ReadBlock;
    ConnectorBlock(s, p, n);
  }

  // ---- One writer step --------------------------------------------------------------------------

  lemma SplitSegment(t: Bits, n: nat, x: Bits, y: Bits)
    requires n + |x| + |y| <= |t| && t[n..n + |x| + |y|] == x + y
    ensures t[n..n + |x|] == x && t[n + |x|..n + |x| + |y|] == y
  {
    SliceOfSlice(t, n, n + |x| + |y|, 0, |x|);
    SliceOfSlice(t, n, n + |x| + |y|, |x|, |x| + |y|);
    assert (x + y)[..|x|] == x && (x + y)[|x|..] == y;
  }

  /** `t` holds `x` at position `n`. */
  predicate Holds(t: Bits, n: nat, x: Bits) {
    n + |x| <= |t| && t[n..n + |x|] == x
  }

  lemma BodySame(c: Chunk, t: Bits, base: nat, final: bool)
    requires WellPlaced(c) && Holds(t, base, Body(c, final))
    ensures var s, l := BitsOf(c.bytes), c.layout;
            && Same(s, t, base, 0, l.finalHeaderBit) && Same(s, t, base, l.finalHeaderBit + 1, l.endBit)
            && t[l.finalHeaderBit + base] == final
            && (s[l.finalHeaderBit] == final ==> Same(s, t, base, 0, l.endBit))
  {
    hide BitsOf;
    var s, l := BitsOf(c.bytes), c.layout;
    forall j | 0 <= j < l.endBit
      ensures t[j + base] == if j == l.finalHeaderBit then final else s[j]
    {
      assert t[base..base + l.endBit][j] == Body(c, final)[j];
    }
  }

  /** The parts of a step lie one behind the other; the chunk itself starts on a byte boundary. */
  lemma StepParts(t: Bits, n: nat, idx: nat, c: Chunk, final: bool)
    requires WellPlaced(c) && (idx == 0 ==> n == 0)
    requires Holds(t, n, StepBits(n, idx, c, final))
    ensures var base := n + |Lead(n, idx)|;
            && base % 8 == 0 && Holds(t, n, Lead(n, idx)) && Holds(t, base, Body(c, final))
            && Holds(t, base + c.layout.endBit, Trail(c, final))
            && base + c.layout.endBit + |Trail(c, final)| == n + |StepBits(n, idx, c, final)|
  {
    hide Connector, BitsOf, Trail, Body;
    LeadAligns(n, idx);
    BodyLength(c, final);
    SplitSegment(t, n, Lead(n, idx) + Body(c, final), Trail(c, final));
    SplitSegment(t, n, Lead(n, idx), Body(c, final));
  }

  lemma LeadAligns(n: nat, idx: nat)
    requires idx == 0 ==> n == 0
    ensures (n + |Lead(n, idx)|) % 8 == 0
  {
    hide Connector;
  }

  lemma BodyLength(c: Chunk, final: bool)
    requires WellPlaced(c)
    ensures |Body(c, final)| == c.layout.endBit
  {
    hide BitsOf;
  }

  lemma LeadSkips(t: Bits, n: nat, idx: nat, h: seq<nat>)
    requires Holds(t, n, Lead(n, idx))
    ensures InflateFrom(t, n, h) == InflateFrom(t, n + |Lead(n, idx)|, h)
  {
    hide Connector, InflateFrom;
    if idx > 0 && n % 8 != 0 {
      ConnectorSkips(t, n, n, h);
    }
  }

  lemma TrailSkips(t: Bits, p: nat, c: Chunk, h: seq<nat>)
    requires Holds(t, p, Trail(c, false)) && p % 8 == c.layout.endBit % 8
    ensures InflateFrom(t, p, h) == InflateFrom(t, p + |Trail(c, false)|, h)
  {
    hide Connector, InflateFrom;
    if Trail(c, false) != [] {
      ConnectorSkips(t, p, c.layout.endBit, h);
    }
  }

  /** A chunk written without a final flag: decompression goes on behind it with its content added. */
  lemma StepContinues(t: Bits, n: nat, idx: nat, c: Chunk, h: seq<nat>)
    requires Sound(c) && (idx == 0 ==> n == 0)
    requires Holds(t, n, StepBits(n, idx, c, false))
    ensures InflateFrom(t, n, h) == InflateFrom(t, n + |StepBits(n, idx, c, false)|, h + Content(c))
  {
    hide InflateFrom, Same, BitsOf, Body, Lead, StepBits, Trail, Holds;
    var base, r := n + |Lead(n, idx)|, Inflate(BitsOf(c.bytes)).value;
    SoundIsWellPlaced(c);
    StepParts(t, n, idx, c, false);
    LeadSkips(t, n, idx, h);
    BodySame(c, t, base, false);
    ChunkContinues(BitsOf(c.bytes), t, base, 0, h, [], r);
    assert h + [] == h;
    TrailSkips(t, base + c.layout.endBit, c, h + r.out);
  }

  /** A chunk written with its final flag: decompression ends with it. */
  lemma StepFinishes(t: Bits, n: nat, idx: nat, c: Chunk, h: seq<nat>)
    requires Sound(c) && (idx == 0 ==> n == 0)
    requires Holds(t, n, StepBits(n, idx, c, true))
    ensures var end := n + |StepBits(n, idx, c, true)|;
            InflateFrom(t, n, h) == Some(Inflated(h + Content(c), Layout(FinalBit(n, idx, c), end)))
  {
    hide InflateFrom, Same, BitsOf, Body, Lead, StepBits, Connector;
    var base, r := n + |Lead(n, idx)|, Inflate(BitsOf(c.bytes)).value;
    StepParts(t, n, idx, c, true);
    LeadSkips(t, n, idx, h);
    BodySame(c, t, base, true);
    ChunkFinishes(BitsOf(c.bytes), t, base, 0, h, [], r);
    assert h + [] == h;
  }

  /** Where the final flag of chunk `idx` lands when the chunk is written behind `n` bits. */
  function FinalBit(n: nat, idx: nat, c: Chunk): nat {
    n + |Lead(n, idx)| + c.layout.finalHeaderBit
  }

  // ---- The whole stream -------------------------------------------------------------------------

  predicate AllSound(chunks: seq<Chunk>) {
    forall c :: c in chunks ==> Sound(c) && WellPlaced(c)
  }

  lemma SoundIsWellPlaced(c: Chunk)
    requires Sound(c)
    ensures WellPlaced(c)
  {
  }

  lemma {:induction false} JoinedPrefix(chunks: seq<Chunk>, finals: seq<bool>, k: nat, m: nat)
    requires k <= m <= |chunks| == |finals| && forall c :: c in chunks ==> WellPlaced(c)
    ensures Joined(chunks, finals, k) <= Joined(chunks, finals, m)
  {
    hide StepBits;
    if k < m {
      JoinedPrefix(chunks, finals, k, m - 1);
    }
  }

  /** While no chunk is flagged final, decompression runs through the chunks and collects their contents. */
  lemma {:induction false} JoinContinues(chunks: seq<Chunk>, finals: seq<bool>, k: nat, t: Bits)
    requires AllSound(chunks) && k <= |chunks| == |finals| && forall i :: 0 <= i < k ==> !finals[i]
    requires Joined(chunks, finals, k) <= t
    ensures Inflate(t) == InflateFrom(t, |Joined(chunks, finals, k)|, Contents(chunks, k))
  {
    hide StepBits, InflateFrom, Sound, Content;
    if k > 0 {
      var before, c := Joined(chunks, finals, k - 1), chunks[k - 1];
      var step := StepBits(|before|, k - 1, c, false);
      assert Joined(chunks, finals, k) == before + step;
      assert t[|before|..|before| + |step|] == step;
      JoinContinues(chunks, finals, k - 1, t);
      assert k == 1 ==> before == [];
      StepContinues(t, |before|, k - 1, c, Contents(chunks, k - 1));
    }
  }

  /** Decompression of a joined stream yields the chunks up to and including the first one flagged final,
      and stops there, whatever follows. */
  lemma JoinEndsAtFirstFinal(chunks: seq<Chunk>, finals: seq<bool>, f: nat, t: Bits)
    requires AllSound(chunks) && f < |chunks| == |finals| && finals[f] && forall i :: 0 <= i < f ==> !finals[i]
    requires Joined(chunks, finals, f + 1) <= t
    ensures Inflate(t) == Some(Inflated(Contents(chunks, f + 1),
                                        Layout(FinalBit(|Joined(chunks, finals, f)|, f, chunks[f]),
                                               |Joined(chunks, finals, f + 1)|)))
  {
    hide StepBits, InflateFrom, Sound, Content, FinalBit;
    var before, c := Joined(chunks, finals, f), chunks[f];
    var step := StepBits(|before|, f, c, true);
    assert Joined(chunks, finals, f + 1) == before + step;
    assert t[|before|..|before| + |step|] == step;
    JoinContinues(chunks, finals, f, t);
    StepFinishes(t, |before|, f, c, Contents(chunks, f));
  }

  /** A joined stream in which no chunk is flagged final is not a DEFLATE stream. */
  lemma JoinNeverEnds(chunks: seq<Chunk>, finals: seq<bool>, pad: nat)
    requires AllSound(chunks) && |chunks| == |finals| && forall i :: 0 <= i < |finals| ==> !finals[i]
    requires pad < 8
    ensures Inflate(Joined(chunks, finals, |chunks|) + Zeros(pad)) == None
  {
    hide StepBits, Sound, Contents, Joined, InflateFrom, Inflate, WellPlaced;
    var j := Joined(chunks, finals, |chunks|);
    JoinContinues(chunks, finals, |chunks|, j + Zeros(pad));
    ShortPaddingEnds(j, pad, Contents(chunks, |chunks|));
  }

  lemma ShortPaddingEnds(j: Bits, pad: nat, out: seq<nat>)
    requires pad < 8
    ensures InflateFrom(j + Zeros(pad), |j|, out) == None
  {
    hide ReadBlock, Expand;
    ShortPaddingIsNoBlock(j, pad);
  }

  lemma ShortPaddingIsNoBlock(j: Bits, pad: nat)
    requires pad < 8
    ensures ReadBlock(j + Zeros(pad), |j|).Fail?
  {
    hide Value, StoredTokens, ReadPayload, ReadDynamicTrees;
    var t := j + Zeros(pad);
    if 3 <= pad {
      assert t[|j| + 1..|j| + 3] == Zeros(2);
      ValueOfZeros(2);
      assert ReadBits(t, |j| + 1, 2) == Ok(0, |j| + 3);
    }
  }

  /** The central law: chunks joined with the final flag on the last one only decompress to the chunks'
      contents in order, the stream ends with the last bit written, and padding behind it does not matter. */
  lemma JoinPreservesMeaning(chunks: seq<Chunk>, padding: Bits)
    requires AllSound(chunks) && chunks != []
    ensures var j := Joined(chunks, LastOnly(|chunks|), |chunks|);
            && Inflate(j + padding).Some?
            && Inflate(j + padding).value.out == Contents(chunks, |chunks|)
            && Inflate(j + padding).value.layout.endBit == |j|
            && LayoutFrom(j + padding, 0) == Ok(Inflate(j + padding).value.layout, |j|)
  {
    hide Sound, Joined, InflateFrom, Contents, LayoutFrom;
    var j := Joined(chunks, LastOnly(|chunks|), |chunks|);
    JoinEndsAtFirstFinal(chunks, LastOnly(|chunks|), |chunks| - 1, j + padding);
    InflateLayout(j + padding, 0, []);
  }

  /** Exactly when the joined stream means all of the input, given that no chunk is empty. */
  lemma JoinMeaningIff(chunks: seq<Chunk>, finals: seq<bool>, pad: nat)
    requires AllSound(chunks) && chunks != [] && |chunks| == |finals| && pad < 8
    requires forall c :: c in chunks ==> c.rawLen > 0
    ensures var r := Inflate(Joined(chunks, finals, |chunks|) + Zeros(pad));
            (r.Some? && r.value.out == Contents(chunks, |chunks|)) <==> finals == LastOnly(|chunks|)
  {
    hide Sound, Joined, Inflate, Contents, WellPlaced, Content;
    if f: nat :| f < |finals| && finals[f] && forall i :: 0 <= i < f ==> !finals[i] {
      FirstFinalMeans(chunks, finals, f, pad);
    } else {
      NoFirst(finals, |finals|);
      assert finals[|finals| - 1] != LastOnly(|finals|)[|finals| - 1];
      JoinNeverEnds(chunks, finals, pad);
    }
  }

  lemma FirstFinalMeans(chunks: seq<Chunk>, finals: seq<bool>, f: nat, pad: nat)
    requires AllSound(chunks) && f < |chunks| == |finals| && finals[f] && forall i :: 0 <= i < f ==> !finals[i]
    requires forall c :: c in chunks ==> c.rawLen > 0
    ensures var r := Inflate(Joined(chunks, finals, |chunks|) + Zeros(pad));
            (r.Some? && r.value.out == Contents(chunks, |chunks|)) <==> finals == LastOnly(|chunks|)
  {
    hide Sound, Joined, Inflate, Contents, WellPlaced, FinalBit, Content;
    JoinedPrefix(chunks, finals, f + 1, |chunks|);
    JoinEndsAtFirstFinal(chunks, finals, f, Joined(chunks, finals, |chunks|) + Zeros(pad));
    ContentsGrow(chunks, f + 1, |chunks|);
    assert finals[f] == LastOnly(|finals|)[f] ==> f == |finals| - 1;
    assert f == |finals| - 1 ==> finals == LastOnly(|finals|);
  }

  lemma {:induction false} ContentsGrow(chunks: seq<Chunk>, k: nat, m: nat)
    requires k <= m <= |chunks| && AllSound(chunks) && forall c :: c in chunks ==> c.rawLen > 0
    ensures |Contents(chunks, k)| + (m - k) <= |Contents(chunks, m)|
  {
    hide Sound, WellPlaced, Content;
    if k < m {
      ContentsGrow(chunks, k, m - 1);
    }
  }

  lemma {:induction false} NoFirst(finals: seq<bool>, k: nat)
    requires k <= |finals|
    requires !exists f: nat :: f < |finals| && finals[f] && forall i :: 0 <= i < f ==> !finals[i]
    ensures forall i :: 0 <= i < k ==> !finals[i]
  {
    if k > 0 {
      NoFirst(finals, k - 1);
    }
  }
}
