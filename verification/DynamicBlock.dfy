/** Blocks written with a planned header and the planned codes mean what was written. */
module DynamicBlock {
  import opened Bits
  import opened Format
  import opened Canonical
  import opened HuffmanEncoder
  import opened Rle
  import opened DynamicHeader
  import opened DynamicPlan

  /** Dynamic header round trip: the reader recovers exactly the planned tables, without the zeros at their ends,
      and consumes exactly `headerBits`, whatever follows. */
  lemma PlanReadsBack(
    plan: DynamicHuffmanPlan, h: Header, lit: seq<nat>, dist: seq<nat>, tail: Bits)
    requires Carries(h, lit, dist) && Holds(plan, h, lit, dist)
    ensures plan.headerBits <= |OctetBits(plan.headerBytesPadded)|
    ensures var s := OctetBits(plan.headerBytesPadded)[..plan.headerBits] + tail;
            && ReadBits(s, 0, 1) == Ok(1, 1) && ReadBits(s, 1, 2) == Ok(2, 3)
            && ReadDynamicTrees(s, 3) == Ok(Trees(lit[..h.hlit], dist[..h.hdist]), plan.headerBits)
  {
    hide ReadBits, ReadDynamicTrees, OctetBits, Header.Written, Unrolled, Kraft, TrimOf, CodeColumn, EntryOf;
    assert OctetBits(plan.headerBytesPadded)[..plan.headerBits] == h.Written();
    HeaderReadsBack(h, tail);
    var a, b := lit[..h.hlit], dist[..h.hdist];
    assert (a + b)[..h.hlit] == a && (a + b)[h.hlit..] == b;
  }

  // ---- Tokens in the planned codes ---------------------------------------------------------------

  /** What the token coder writes: an octet, or a length code and a distance code with their extra bits. */
  datatype Coded = Octet(value: nat) | Copy(lenIndex: nat, lenExtra: nat, distSym: nat, distExtra: nat)

  /** The values are in their ranges. */
  predicate InRange(w: Coded) {
    match w
    case Octet(v) => v < 256
    case Copy(l, le, d, de) => l < 29 && le < Pow2(LENGTH_EXTRA_BITS[l]) && d < 30 && de < Pow2(DIST_EXTRA_BITS[d])
  }

  /** The symbols have codes. */
  predicate HasCode(w: Coded, lit: seq<nat>, dist: seq<nat>) {
    match w
    case Octet(v) => v < |lit| && lit[v] > 0
    case Copy(l, _, d, _) => 257 + l < |lit| && lit[257 + l] > 0 && d < |dist| && dist[d] > 0
  }

  function TokenOf(w: Coded): Token
    requires InRange(w)
  {
    match w
    case Octet(v) => Literal(v)
    case Copy(l, le, d, de) => Match(LENGTH_BASE[l] + le, DIST_BASE[d] + de)
  }

  function TokenBits(w: Coded, lit: seq<nat>, dist: seq<nat>): Bits
    requires InRange(w) && HasCode(w, lit, dist)
  {
    match w
    case Octet(v) => SymbolBits(lit, v)
    case Copy(l, le, d, de) =>
      SymbolBits(lit, 257 + l) + NatBits(le, LENGTH_EXTRA_BITS[l])
      + SymbolBits(dist, d) + NatBits(de, DIST_EXTRA_BITS[d])
  }

  /** The tables have codes for all tokens and for the end of the block. */
  predicate Writable(ws: seq<Coded>, lit: seq<nat>, dist: seq<nat>) {
    |lit| > 256 && lit[256] > 0 && forall i :: 0 <= i < |ws| ==> InRange(ws[i]) && HasCode(ws[i], lit, dist)
  }

  /** The tokens one behind the other, then the end of the block. */
  function PayloadBits(ws: seq<Coded>, lit: seq<nat>, dist: seq<nat>): Bits
    requires Writable(ws, lit, dist)
  {
    if ws == [] then SymbolBits(lit, 256) else TokenBits(ws[0], lit, dist) + PayloadBits(ws[1..], lit, dist)
  }

  function Tokens(ws: seq<Coded>): (r: seq<Token>)
    requires forall i :: 0 <= i < |ws| ==> InRange(ws[i])
    ensures |r| == |ws|
  {
    seq(|ws|, i requires 0 <= i < |ws| => TokenOf(ws[i]))
  }

  /** `s` holds `b` at position `p`. */
  predicate BitsAt(s: Bits, p: nat, b: Bits) {
    p + |b| <= |s| && s[p..p + |b|] == b
  }

  lemma BitsAtSplit(s: Bits, p: nat, a: Bits, b: Bits)
    requires BitsAt(s, p, a + b)
    ensures BitsAt(s, p, a) && BitsAt(s, p + |a|, b)
  {
    SliceOfSlice(s, p, p + |a + b|, 0, |a|);
    SliceOfSlice(s, p, p + |a + b|, |a|, |a + b|);
  }

  lemma SymbolReads(s: Bits, p: nat, lengths: seq<nat>, m: nat, sym: nat)
    requires Kraft(lengths, m) && sym < |lengths| && lengths[sym] > 0 && BitsAt(s, p, SymbolBits(lengths, sym))
    ensures DecodeSymbol(s, p, lengths) == Ok(sym, p + |SymbolBits(lengths, sym)|)
  {
    hide Kraft, Code, DecodeSymbol;
    DecodeCode(s, p, lengths, m, sym);
  }

  lemma MatchReads(s: Bits, p: nat, trees: Trees, m: nat, w: Coded)
    requires Kraft(trees.dist, m) && w.Copy? && InRange(w) && HasCode(w, trees.lit, trees.dist)
    requires BitsAt(s, p, NatBits(w.lenExtra, LENGTH_EXTRA_BITS[w.lenIndex]) + SymbolBits(trees.dist, w.distSym)
        + NatBits(w.distExtra, DIST_EXTRA_BITS[w.distSym]))
    ensures ReadMatch(s, p, w.lenIndex, trees.dist) ==
            Ok(Item(TokenOf(w)), p + LENGTH_EXTRA_BITS[w.lenIndex] + |SymbolBits(trees.dist, w.distSym)|
               + DIST_EXTRA_BITS[w.distSym])
  {
    hide Kraft, SymbolBits, DecodeSymbol, NatBits, BitsAt, ReadBits, Pow2;
    var a, b := NatBits(w.lenExtra, LENGTH_EXTRA_BITS[w.lenIndex]), SymbolBits(trees.dist, w.distSym);
    var c := NatBits(w.distExtra, DIST_EXTRA_BITS[w.distSym]);
    BitsAtSplit(s, p, a + b, c);
    BitsAtSplit(s, p, a, b);
    NumberReads(s, p, w.lenExtra, LENGTH_EXTRA_BITS[w.lenIndex]);
    SymbolReads(s, p + |a|, trees.dist, m, w.distSym);
    NumberReads(s, p + |a| + |b|, w.distExtra, DIST_EXTRA_BITS[w.distSym]);
  }

  lemma NumberReads(s: Bits, p: nat, v: nat, n: nat)
    requires v < Pow2(n) && BitsAt(s, p, NatBits(v, n))
    ensures ReadBits(s, p, n) == Ok(v, p + n)
  {
    hide NatBits, Pow2, ReadBits;
    FieldReadsBack(s, p, v, n);
  }

  /** One token reads back. */
  lemma TokenReads(s: Bits, p: nat, trees: Trees, m: nat, w: Coded)
    requires Kraft(trees.lit, m) && Kraft(trees.dist, m) && InRange(w) && HasCode(w, trees.lit, trees.dist)
    requires BitsAt(s, p, TokenBits(w, trees.lit, trees.dist))
    ensures ReadItem(s, p, trees) == Ok(Item(TokenOf(w)), p + |TokenBits(w, trees.lit, trees.dist)|)
  {
    hide Kraft, SymbolBits, DecodeSymbol, NatBits, BitsAt, ReadMatch, Pow2;
    match w
    case Octet(v) => SymbolReads(s, p, trees.lit, m, v);
    case Copy(l, le, d, de) =>
      var x, y := SymbolBits(trees.lit, 257 + l), NatBits(le, LENGTH_EXTRA_BITS[l]);
      var z, u := SymbolBits(trees.dist, d), NatBits(de, DIST_EXTRA_BITS[d]);
      assert x + y + z + u == x + (y + z + u);
      BitsAtSplit(s, p, x, y + z + u);
      SymbolReads(s, p, trees.lit, m, 257 + l);
      MatchReads(s, p + |x|, trees, m, w);
  }

  /** The payload of a block reads back as the tokens that were written. */
  lemma {:induction false} PayloadReads(s: Bits, p: nat, trees: Trees, m: nat, ws: seq<Coded>)
    requires Kraft(trees.lit, m) && Kraft(trees.dist, m) && Writable(ws, trees.lit, trees.dist)
    requires BitsAt(s, p, PayloadBits(ws, trees.lit, trees.dist))
    ensures ReadPayload(s, p, trees) == Ok(Tokens(ws), p + |PayloadBits(ws, trees.lit, trees.dist)|)
    decreases |ws|
  {
    hide Kraft, SymbolBits, DecodeSymbol, TokenBits, BitsAt, ReadMatch, InRange, HasCode, TokenOf;
    if ws == [] {
      SymbolReads(s, p, trees.lit, m, 256);
    } else {
      var a, b := TokenBits(ws[0], trees.lit, trees.dist), PayloadBits(ws[1..], trees.lit, trees.dist);
      BitsAtSplit(s, p, a, b);
      OneToken(s, p, trees, m, ws[0]);
      PayloadReads(s, p + |a|, trees, m, ws[1..]);
      assert Tokens(ws) == [TokenOf(ws[0])] + Tokens(ws[1..]);
    }
  }

  lemma OneToken(s: Bits, p: nat, trees: Trees, m: nat, w: Coded)
    requires Kraft(trees.lit, m) && Kraft(trees.dist, m) && InRange(w) && HasCode(w, trees.lit, trees.dist)
    requires BitsAt(s, p, TokenBits(w, trees.lit, trees.dist))
    ensures ReadItem(s, p, trees) == Ok(Item(TokenOf(w)), p + |TokenBits(w, trees.lit, trees.dist)|)
    ensures var r := ReadPayload(s, p + |TokenBits(w, trees.lit, trees.dist)|, trees);
            ReadPayload(s, p, trees) == if r.Ok? then Ok([TokenOf(w)] + r.value, r.next) else Fail(r.error)
  {
    hide Kraft, TokenBits, BitsAt, ReadItem, InRange, HasCode, TokenOf;
    TokenReads(s, p, trees, m, w);
  }

  /** The shortened tables write the same bits. */
  lemma {:induction false} TrimKeepsPayload(
    ws: seq<Coded>, lit: seq<nat>, dist: seq<nat>, lit': seq<nat>, dist': seq<nat>, m: nat)
    requires TrimOf(lit, lit') && TrimOf(dist, dist') && Kraft(lit, m) && Kraft(dist, m) && Writable(ws, lit, dist)
    ensures Writable(ws, lit', dist') && PayloadBits(ws, lit', dist') == PayloadBits(ws, lit, dist)
    decreases |ws|
  {
    hide Kraft, SymbolBits, InRange, HasCode, TokenBits, TrimOf;
    EndKeepsCode(lit, lit', m);
    if ws != [] {
      TrimKeepsToken(ws[0], lit, dist, lit', dist', m);
      TrimKeepsPayload(ws[1..], lit, dist, lit', dist', m);
      assert forall i :: 1 <= i < |ws| ==> ws[i] == ws[1..][i - 1];
    }
  }

  lemma EndKeepsCode(lit: seq<nat>, lit': seq<nat>, m: nat)
    requires TrimOf(lit, lit') && Kraft(lit, m) && |lit| > 256 && lit[256] > 0
    ensures |lit'| > 256 && lit'[256] > 0 && SymbolBits(lit', 256) == SymbolBits(lit, 256)
  {
    hide Kraft, SymbolBits;
    TrimKeepsCodes(lit, lit', m);
  }

  lemma TrimKeepsToken(w: Coded, lit: seq<nat>, dist: seq<nat>, lit': seq<nat>, dist': seq<nat>, m: nat)
    requires TrimOf(lit, lit') && TrimOf(dist, dist') && Kraft(lit, m) && Kraft(dist, m)
    requires InRange(w) && HasCode(w, lit, dist)
    ensures HasCode(w, lit', dist') && TokenBits(w, lit', dist') == TokenBits(w, lit, dist)
  {
    hide Kraft, SymbolBits, InRange;
    TrimKeepsCodes(lit, lit', m);
    TrimKeepsCodes(dist, dist', m);
  }

  /** The tables count a use of every symbol of the tokens. */
  predicate Counted(ws: seq<Coded>, litFreq: seq<nat>, distFreq: seq<nat>) {
    forall i :: 0 <= i < |ws| ==> InRange(ws[i]) && HasCode(ws[i], litFreq, distFreq)
  }

  lemma CountedIsWritable(ws: seq<Coded>, litFreq: seq<nat>, distFreq: seq<nat>, lit: seq<nat>, dist: seq<nat>)
    requires Counted(ws, litFreq, distFreq) && ServesLiterals(litFreq, lit) && ServesDistances(distFreq, dist)
    ensures Writable(ws, lit, dist)
  {
    hide InRange;
  }

  /** A planned header, then any tokens whose symbols the tables given to the planner count, matches included, and the
      end-of-block symbol, in the planned codes: the block reads back as a final block of exactly these tokens. */
  lemma PlannedBlockReadsBack(
    plan: DynamicHuffmanPlan, h: Header, litlenFreqIn: seq<nat>, distFreqIn: seq<nat>, lit: seq<nat>, dist: seq<nat>,
    ws: seq<Coded>, tail: Bits)
    requires Carries(h, lit, dist) && Holds(plan, h, lit, dist)
    requires ServesLiterals(litlenFreqIn, lit) && ServesDistances(distFreqIn, dist)
    requires Counted(ws, litlenFreqIn, distFreqIn)
    ensures plan.headerBits <= |OctetBits(plan.headerBytesPadded)| && Writable(ws, lit, dist)
    ensures var payload := PayloadBits(ws, lit, dist);
            var s := OctetBits(plan.headerBytesPadded)[..plan.headerBits] + (payload + tail);
            ReadBlock(s, 0) == Ok(Block(true, Tokens(ws)), plan.headerBits + |payload|)
  {
    hide ReadBits, ReadDynamicTrees, OctetBits, Holds, Unrolled, Kraft, TrimOf, PayloadBits, ReadPayload, ReadStored;
    hide Tokens, Header.Written, CodeLenBits, ItemsBits, Writable, Counted, ServesLiterals, ServesDistances;
    CountedIsWritable(ws, litlenFreqIn, distFreqIn, lit, dist);
    var payload := PayloadBits(ws, lit, dist);
    PlanReadsBack(plan, h, lit, dist, payload + tail);
    var header := OctetBits(plan.headerBytesPadded)[..plan.headerBits];
    var s := header + (payload + tail);
    var trees := Trees(lit[..h.hlit], dist[..h.hdist]);
    TrimKeepsCodes(lit, trees.lit, MAX_BITS);
    TrimKeepsCodes(dist, trees.dist, MAX_BITS);
    TrimKeepsPayload(ws, lit, dist, trees.lit, trees.dist, MAX_BITS);
    assert BitsAt(s, |header|, payload);
    PayloadReads(s, |header|, trees, MAX_BITS, ws);
    FirstBit(s);
  }

  lemma FirstBit(s: Bits)
    requires ReadBits(s, 0, 1) == Ok(1, 1)
    ensures |s| > 0 && s[0]
  {
    assert s[0..1] == [s[0]];
    assert [s[0]][1..] == [];
    assert Value([s[0]]) == if s[0] then 1 else 0;
  }
}
