/** What the tables of RFC 1951 say (sections 3.2.4 to 3.2.7): the lengths and distances that the symbols stand for, the
    fixed codes, the transmission order, and the blocks that use them. */
module CodeTables {
  import opened Options
  import opened Bits
  import opened Format
  import opened Canonical
  import opened HuffmanEncoder
  import opened DynamicBlock

  // ---- Lengths and distances ---------------------------------------------------------------------

  /** The first length behind those of a symbol. */
  function LengthEnd(i: nat): nat
    requires i < 29
  {
    LENGTH_BASE[i] + Pow2(LENGTH_EXTRA_BITS[i])
  }

  function DistEnd(d: nat): nat
    requires d < 30
  {
    DIST_BASE[d] + Pow2(DIST_EXTRA_BITS[d])
  }

  lemma {:induction false} Powers(n: nat)
    requires n <= 13
    ensures Pow2(n) == [1, 2, 4, 8, 16, 32, 64, 128, 256, 512, 1024, 2048, 4096, 8192][n]
  {
    if n > 0 {
      Powers(n - 1);
    }
  }

  /** The lengths of the symbols 257 to 284 follow one another from 3 on without a gap and end at 258: eight symbols
      without extra bits, then four for every width from one to five. The symbol 285 stands for 258 alone. */
  lemma LengthRanges(i: nat)
    requires i < 28
    ensures |LENGTH_BASE| == 29 == |LENGTH_EXTRA_BITS|
    ensures LENGTH_BASE[0] == 3 && LengthEnd(27) - 1 == 258 == LENGTH_BASE[28] && LENGTH_EXTRA_BITS[28] == 0
    ensures i < 27 ==> LENGTH_BASE[i + 1] == LengthEnd(i)
    ensures LENGTH_EXTRA_BITS[i] == if i < 8 then 0 else (i - 4) / 4
  {
    hide Pow2;
    Powers(LENGTH_EXTRA_BITS[i]);
    Powers(LENGTH_EXTRA_BITS[27]);
  }

  /** The distances of the symbols 0 to 29 follow one another from 1 to 32768: two symbols without extra bits, then two
      for every width from zero to thirteen. */
  lemma DistanceRanges(d: nat)
    requires d < 30
    ensures |DIST_BASE| == 30 == |DIST_EXTRA_BITS|
    ensures DIST_BASE[0] == 1 && DistEnd(29) - 1 == 32768
    ensures d < 29 ==> DIST_BASE[d + 1] == DistEnd(d)
    ensures DIST_EXTRA_BITS[d] == if d < 2 then 0 else (d - 2) / 2
  {
    hide Pow2;
    Powers(DIST_EXTRA_BITS[d]);
    Powers(DIST_EXTRA_BITS[29]);
  }

  /** The symbol among the first `n + 1` that a length belongs to. */
  lemma {:induction false} LengthSymbol(length: nat, n: nat) returns (i: nat)
    requires n < 28 && 3 <= length < LengthEnd(n)
    ensures i <= n && LENGTH_BASE[i] <= length < LengthEnd(i)
  {
    hide LengthEnd;
    LengthRanges(n);
    if LENGTH_BASE[n] <= length {
      i := n;
    } else {
      LengthRanges(n - 1);
      i := LengthSymbol(length, n - 1);
    }
  }

  lemma {:induction false} DistanceSymbol(distance: nat, n: nat) returns (d: nat)
    requires n < 30 && 1 <= distance < DistEnd(n)
    ensures d <= n && DIST_BASE[d] <= distance < DistEnd(d)
  {
    hide DistEnd;
    DistanceRanges(n);
    if DIST_BASE[n] <= distance {
      d := n;
    } else {
      DistanceRanges(n - 1);
      d := DistanceSymbol(distance, n - 1);
    }
  }

  lemma {:induction false} LengthsAscend(i: nat, j: nat)
    requires i < j < 28
    ensures LengthEnd(i) <= LENGTH_BASE[j]
    decreases j - i
  {
    hide Pow2;
    LengthRanges(i);
    if i + 1 < j {
      LengthsAscend(i + 1, j);
    }
  }

  lemma {:induction false} DistancesAscend(i: nat, j: nat)
    requires i < j < 30
    ensures DistEnd(i) <= DIST_BASE[j]
    decreases j - i
  {
    hide Pow2;
    DistanceRanges(i);
    if i + 1 < j {
      DistancesAscend(i + 1, j);
    }
  }

  /** Every length from 3 to 258 with every distance from 1 to 32768 can be coded. */
  lemma EveryMatchCoded(length: nat, distance: nat) returns (w: Coded)
    requires 3 <= length <= 258 && 1 <= distance <= 32768
    ensures InRange(w) && TokenOf(w) == Match(length, distance)
  {
    hide Pow2;
    LengthRanges(27);
    DistanceRanges(29);
    var i := LengthSymbol(length, 27);
    var d := DistanceSymbol(distance, 29);
    w := Copy(i, length - LENGTH_BASE[i], d, distance - DIST_BASE[d]);
  }

  /** What a coded token stands for is within these limits. */
  lemma CodedWithin(w: Coded)
    requires InRange(w) && w.Copy?
    ensures 3 <= TokenOf(w).length <= 258 && 1 <= TokenOf(w).distance <= 32768
  {
    hide Pow2;
    Powers(0);
    LengthRanges(0);
    DistanceRanges(0);
    if 0 < w.lenIndex < 28 { LengthsAscend(0, w.lenIndex); }
    if w.lenIndex < 27 { LengthsAscend(w.lenIndex, 27); }
    if w.distSym > 0 { DistancesAscend(0, w.distSym); }
    if w.distSym < 29 { DistancesAscend(w.distSym, 29); }
  }

  /** Only the length 258 can be coded in two ways. */
  lemma CodedOnce(a: Coded, b: Coded)
    requires InRange(a) && InRange(b) && TokenOf(a) == TokenOf(b)
    ensures a == b || (a.Copy? && b.Copy? && TokenOf(a).length == 258 && a.lenIndex != b.lenIndex)
  {
    hide Pow2;
    if a.Copy? && b.Copy? {
      if a.distSym < b.distSym { DistancesAscend(a.distSym, b.distSym); }
      if b.distSym < a.distSym { DistancesAscend(b.distSym, a.distSym); }
      LengthRanges(27);
      Powers(0);
      if a.lenIndex < b.lenIndex < 28 { LengthsAscend(a.lenIndex, b.lenIndex); }
      if b.lenIndex < a.lenIndex < 28 { LengthsAscend(b.lenIndex, a.lenIndex); }
      if a.lenIndex < 27 { LengthsAscend(a.lenIndex, 27); }
      if b.lenIndex < 27 { LengthsAscend(b.lenIndex, 27); }
    }
  }

  // ---- The transmission order of the code length alphabet ----------------------------------------

  /** First the three repetitions and zero, then outwards from 8: up from 8 and down from 7 in turn. */
  lemma OrderRunsOutwards(i: nat)
    requires i < 19
    ensures |CODELEN_ORDER| == 19
    ensures CODELEN_ORDER[i] == if i < 3 then 16 + i else if i == 3 then 0
                                else if i % 2 == 0 then 8 + (i - 4) / 2 else 7 - (i - 5) / 2
  {
  }

  // ---- The fixed codes ---------------------------------------------------------------------------

  lemma {:induction false} CountRepeat(a: seq<nat>, v: nat, n: nat, b: nat)
    ensures Count(a + Repeat(v, n), b) == Count(a, b) + if v == b then n else 0
    decreases n
  {
    if n == 0 {
      assert a + Repeat(v, n) == a;
    } else {
      CountRepeat(a, v, n - 1, b);
      assert (a + Repeat(v, n))[..|a| + n - 1] == a + Repeat(v, n - 1);
    }
  }

  /** The fixed literal and length table has 152 codes of 8 bits, 112 of 9 and 24 of 7. */
  lemma FixedCounts(b: nat)
    ensures Count(FixedTrees().lit, b) == if b == 7 then 24 else if b == 8 then 152 else if b == 9 then 112 else 0
    ensures Count(FixedTrees().dist, b) == if b == 5 then 32 else 0
  {
    hide Repeat, Count;
    var x, y, z, u := Repeat(8, 144), Repeat(9, 112), Repeat(7, 24), Repeat(8, 8);
    NoneCounted(b);
    assert [] + x == x && [] + Repeat(5, 32) == Repeat(5, 32);
    CountRepeat([], 8, 144, b);
    CountRepeat(x, 9, 112, b);
    CountRepeat(x + y, 7, 24, b);
    CountRepeat(x + y + z, 8, 8, b);
    CountRepeat([], 5, 32, b);
  }

  lemma NoneCounted(b: nat)
    ensures Count([], b) == 0
  {
  }

  lemma {:induction false} FixedFirst(n: nat)
    requires 1 <= n <= 9
    ensures FirstCode(FixedTrees().lit, n) == if n <= 7 then 0 else if n == 8 then 48 else 400
    ensures n <= 5 ==> FirstCode(FixedTrees().dist, n) == 0
  {
    hide Count, FixedTrees;
    if n > 1 {
      FixedFirst(n - 1);
      FixedCounts(n - 1);
    }
  }

  /** The rank of a fixed literal or length symbol among those of its length. */
  lemma FixedRank(s: nat)
    requires s < 288
    ensures |FixedTrees().lit| == 288
    ensures FixedTrees().lit[s] == if s < 144 then 8 else if s < 256 then 9 else if s < 280 then 7 else 8
    ensures Rank(FixedTrees().lit, s) ==
            if s < 144 then s else if s < 256 then s - 144 else if s < 280 then s - 256 else s - 136
  {
    hide Count;
    var lit := FixedTrees().lit;
    var x, y, z := Repeat(8, 144), Repeat(9, 112), Repeat(7, 24);
    var b := lit[s];
    NoneCounted(b);
    CountRepeat([], 8, 144, b);
    CountRepeat(x, 9, 112, b);
    CountRepeat(x + y, 7, 24, b);
    assert [] + x == x;
    if s < 144 {
      CountRepeat([], 8, s, b);
      assert lit[..s] == [] + Repeat(8, s);
    } else if s < 256 {
      CountRepeat(x, 9, s - 144, b);
      assert lit[..s] == x + Repeat(9, s - 144);
    } else if s < 280 {
      CountRepeat(x + y, 7, s - 256, b);
      assert lit[..s] == x + y + Repeat(7, s - 256);
    } else {
      CountRepeat(x + y + z, 8, s - 280, b);
      assert lit[..s] == x + y + z + Repeat(8, s - 280);
    }
  }

  /** The bits write a number, most significant bit first. */
  predicate Spells(b: Bits, v: nat) {
    forall j :: 0 <= j < |b| ==> b[j] == (v / Pow2(|b| - 1 - j) % 2 == 1)
  }

  lemma CodeSpells(v: nat, n: nat)
    ensures Spells(CodeBits(v, n), v)
  {
    hide CodeBits, Pow2;
    forall j | 0 <= j < n
      ensures CodeBits(v, n)[j] == (v / Pow2(n - 1 - j) % 2 == 1)
    {
      CodeBitAt(v, n, j);
    }
  }

  /** The code of every symbol of the fixed literal and length alphabet, group by group as section 3.2.6 lists them:
      00110000 and following, 110010000 and following, 0000000 and following, 11000000 and following. */
  lemma FixedLiteralCodes(s: nat)
    requires s < 288
    ensures |FixedTrees().lit| == 288
    ensures var b := SymbolBits(FixedTrees().lit, s);
            && (s < 144 ==> |b| == 8 && Spells(b, 0x30 + s))
            && (144 <= s < 256 ==> |b| == 9 && Spells(b, 0x190 + (s - 144)))
            && (256 <= s < 280 ==> |b| == 7 && Spells(b, s - 256))
            && (280 <= s ==> |b| == 8 && Spells(b, 0xC0 + (s - 280)))
  {
    hide Rank, FirstCode, FixedTrees, CodeBits, Spells;
    FixedRank(s);
    FixedFirst(FixedTrees().lit[s]);
    CodeSpells(Code(FixedTrees().lit, s), FixedTrees().lit[s]);
  }

  /** Every distance symbol of the fixed code is written as its own number in five bits. */
  lemma FixedDistanceCodes(d: nat)
    requires d < 32
    ensures |FixedTrees().dist| == 32
    ensures |SymbolBits(FixedTrees().dist, d)| == 5 && Spells(SymbolBits(FixedTrees().dist, d), d)
  {
    hide Count, FirstCode, CodeBits, Spells;
    FixedFirst(5);
    NoneCounted(5);
    CountRepeat([], 5, d, 5);
    assert FixedTrees().dist[..d] == [] + Repeat(5, d);
    CodeSpells(d, 5);
  }

  lemma {:induction false} FixedSums(n: nat)
    requires n <= 9
    ensures KraftSum(FixedTrees().lit, n) == if n < 7 then 0 else if n == 7 then 24 else if n == 8 then 200 else 512
    ensures KraftSum(FixedTrees().dist, n) == if n < 5 then 0 else 32 * Pow2(n - 5)
  {
    hide Count, FixedTrees;
    if n > 0 {
      FixedSums(n - 1);
      FixedCounts(n);
    }
  }

  /** Both fixed codes are complete. */
  lemma FixedKraft()
    ensures Kraft(FixedTrees().lit, 9) && Kraft(FixedTrees().dist, 9)
  {
    hide KraftSum, Pow2;
    FixedSums(9);
    Powers(9);
    Powers(4);
  }

  // ---- Blocks ------------------------------------------------------------------------------------

  lemma HeaderBits(s: Bits, p: nat, final: bool, low: bool, high: bool)
    requires BitsAt(s, p, [final, low, high])
    ensures s[p] == final && ReadBits(s, p, 1).Ok? && ReadBits(s, p, 1).next == p + 1
    ensures ReadBits(s, p + 1, 2) == Ok((if low then 1 else 0) + (if high then 2 else 0), p + 3)
  {
    assert s[p..p + 3] == [final, low, high];
    assert s[p] == s[p..p + 3][0];
    assert s[p + 1..p + 3] == [low, high] by {
      assert s[p + 1..p + 3] == s[p..p + 3][1..];
    }
    assert [low, high][1..] == [high] && [high][1..] == [];
    assert Value([high]) == if high then 1 else 0;
  }

  /** A block in the fixed codes reads back as the tokens that were written, whatever surrounds it. */
  lemma FixedBlockReadsBack(s: Bits, p: nat, final: bool, ws: seq<Coded>)
    requires forall i :: 0 <= i < |ws| ==> InRange(ws[i])
    ensures Writable(ws, FixedTrees().lit, FixedTrees().dist)
    ensures var payload := PayloadBits(ws, FixedTrees().lit, FixedTrees().dist);
            BitsAt(s, p, [final, true, false] + payload) ==>
              ReadBlock(s, p) == Ok(Block(final, Tokens(ws)), p + 3 + |payload|)
  {
    hide Kraft, InRange, ReadBits, PayloadBits, ReadPayload, BitsAt, Tokens, ReadStored, ReadDynamicTrees;
    FixedServesAll(ws);
    hide FixedTrees;
    var payload := PayloadBits(ws, FixedTrees().lit, FixedTrees().dist);
    if BitsAt(s, p, [final, true, false] + payload) {
      FixedKraft();
      BitsAtSplit(s, p, [final, true, false], payload);
      HeaderBits(s, p, final, true, false);
      PayloadReads(s, p + 3, FixedTrees(), 9, ws);
    }
  }

  lemma FixedServesAll(ws: seq<Coded>)
    requires forall i :: 0 <= i < |ws| ==> InRange(ws[i])
    ensures Writable(ws, FixedTrees().lit, FixedTrees().dist)
  {
    hide Pow2;
  }

  /** A stream that is one final block in the fixed codes: what it means, and where the walker's layout puts its end. */
  lemma FixedStreamMeans(ws: seq<Coded>, tail: Bits)
    requires forall i :: 0 <= i < |ws| ==> InRange(ws[i])
    requires Expand(Tokens(ws), []).Some?
    ensures Writable(ws, FixedTrees().lit, FixedTrees().dist)
    ensures var payload := PayloadBits(ws, FixedTrees().lit, FixedTrees().dist);
            var s, layout := [true, true, false] + payload + tail, Layout(0, 3 + |payload|);
            && LayoutFrom(s, 0) == Ok(layout, layout.endBit)
            && Inflate(s) == Some(Inflated(Expand(Tokens(ws), []).value, layout))
  {
    hide InRange, PayloadBits, Tokens, Expand, ReadBlock, FixedTrees, Writable;
    FixedServesAll(ws);
    var payload := PayloadBits(ws, FixedTrees().lit, FixedTrees().dist);
    var block := [true, true, false] + payload;
    var s := block + tail;
    assert s[0..|block|] == block;
    FixedBlockReadsBack(s, 0, true, ws);
  }

  /** Thirteen times the same octet: two literals, then a match of length 11 at distance 1, in 39 bits. */
  lemma ThirteenAlike(o: nat, tail: Bits) returns (ws: seq<Coded>)
    requires o < 144
    ensures ws == [Octet(o), Octet(o), Copy(8, 0, 0, 0)] && Writable(ws, FixedTrees().lit, FixedTrees().dist)
    ensures var s := [true, true, false] + PayloadBits(ws, FixedTrees().lit, FixedTrees().dist) + tail;
            Inflate(s) == Some(Inflated(Repeat(o, 13), Layout(0, 39)))
  {
    hide FixedTrees, SymbolBits, Inflate, LayoutFrom, CopyMatch;
    ws := [Octet(o), Octet(o), Copy(8, 0, 0, 0)];
    FixedServesAll(ws);
    MatchRepeats([o, o], 11, 1);
    ThirteenExpand(o, ws);
    FixedStreamMeans(ws, tail);
    ThirteenBits(o, ws);
  }

  lemma ThirteenExpand(o: nat, ws: seq<Coded>)
    requires ws == [Octet(o), Octet(o), Copy(8, 0, 0, 0)] && o < 144
    ensures (forall i :: 0 <= i < |ws| ==> InRange(ws[i])) && Expand(Tokens(ws), []) == Some(Repeat(o, 13))
  {
    hide CopyMatch;
    MatchRepeats([o, o], 11, 1);
    var t := Tokens(ws);
    assert t == [Literal(o), Literal(o), Match(11, 1)];
    assert t[1..] == [Literal(o), Match(11, 1)] && t[1..][1..] == [Match(11, 1)] && t[1..][1..][1..] == [];
    assert [] + [o] == [o] && [o] + [o] == [o, o];
    var r := CopyMatch([o, o], 11, 1);
    AllAlike(r, o, 13);
    assert Expand(t[1..][1..], [o, o]) == Expand([], r) == Some(r);
    assert Expand(t[1..], [o]) == Some(r);
  }

  lemma {:induction false} AllAlike(r: seq<nat>, o: nat, n: nat)
    requires 2 <= n == |r| && r[..2] == [o, o] && forall i :: 2 <= i < |r| ==> r[i] == r[i - 1]
    ensures r == Repeat(o, n)
  {
    if n == 2 {
      assert r == r[..2];
    } else {
      AllAlike(r[..n - 1], o, n - 1);
      assert r[n - 1] == r[..n - 1][n - 2];
    }
  }

  lemma ThirteenBits(o: nat, ws: seq<Coded>)
    requires ws == [Octet(o), Octet(o), Copy(8, 0, 0, 0)] && o < 144
    requires Writable(ws, FixedTrees().lit, FixedTrees().dist)
    ensures |PayloadBits(ws, FixedTrees().lit, FixedTrees().dist)| == 36
  {
    hide FixedTrees, SymbolBits, NatBits, Writable;
    FixedServesAll(ws);
    var lit, dist := FixedTrees().lit, FixedTrees().dist;
    FixedLiteralCodes(o);
    FixedLiteralCodes(265);
    FixedLiteralCodes(256);
    FixedDistanceCodes(0);
    var a, b := [Octet(o), Copy(8, 0, 0, 0)], [Copy(8, 0, 0, 0)];
    assert ws[1..] == a && a[1..] == b && b[1..] == [];
    FixedServesAll(a);
    FixedServesAll(b);
    FixedServesAll([]);
    assert |PayloadBits([], lit, dist)| == 7;
    assert |PayloadBits(b, lit, dist)| == 20;
    assert |PayloadBits(a, lit, dist)| == 28;
  }

  function Literals(octets: seq<nat>): (r: seq<Token>)
    ensures |r| == |octets|
  {
    seq(|octets|, i requires 0 <= i < |octets| => Literal(octets[i]))
  }

  lemma {:induction false} OctetAt(octets: seq<nat>, i: nat)
    requires i < |octets|
    ensures OctetBits(octets)[8 * i..8 * i + 8] == NatBits(octets[i], 8)
    decreases |octets|
  {
    hide NatBits;
    var init := octets[..|octets| - 1];
    if i < |init| {
      OctetAt(init, i);
      assert OctetBits(octets)[8 * i..8 * i + 8] == OctetBits(init)[8 * i..8 * i + 8];
    }
  }

  lemma StoredReads(s: Bits, p: nat, octets: seq<nat>)
    requires AllOctets(octets) && BitsAt(s, p, OctetBits(octets))
    ensures StoredTokens(s, p, |octets|) == Literals(octets)
  {
    hide OctetBits, NatBits, Value, BitsAt;
    WithinBits(s, p, OctetBits(octets));
    forall i | 0 <= i < |octets|
      ensures Value(s[p + 8 * i..p + 8 * i + 8]) == octets[i]
    {
      StoredOctet(s, p, octets, i);
    }
  }

  lemma StoredOctet(s: Bits, p: nat, octets: seq<nat>, i: nat)
    requires AllOctets(octets) && BitsAt(s, p, OctetBits(octets)) && i < |octets|
    ensures Value(s[p + 8 * i..p + 8 * i + 8]) == octets[i]
  {
    hide OctetBits, NatBits, Value, Pow2;
    var b := OctetBits(octets);
    OctetAt(octets, i);
    SliceOfSlice(s, p, p + |b|, 8 * i, 8 * i + 8);
    Pow2Of8();
    ValueOfNatBits(octets[i], 8);
  }

  /** A stored block: behind the header bits whatever fills the octet, then the number of octets, its complement, and
      the octets (section 3.2.4). It reads back as these octets. */
  lemma StoredBlockReadsBack(s: Bits, p: nat, q: nat, final: bool, octets: seq<nat>)
    requires |octets| <= 0xFFFF && AllOctets(octets) && BitsAt(s, p, [final, false, false])
    requires p + 3 <= q < p + 11 && q % 8 == 0
    requires BitsAt(s, q, NatBits(|octets|, 16) + NatBits(0xFFFF - |octets|, 16) + OctetBits(octets))
    ensures ReadBlock(s, p) == Ok(Block(final, Literals(octets)), q + 32 + 8 * |octets|)
  {
    hide OctetBits, NatBits, ReadBits, Pow2, BitsAt, StoredTokens, Literals, ReadDynamicTrees, ReadPayload;
    HeaderBits(s, p, final, false, false);
    assert AlignToByte(p + 3) == q;
    var len, inverse := NatBits(|octets|, 16), NatBits(0xFFFF - |octets|, 16);
    BitsAtSplit(s, q, len + inverse, OctetBits(octets));
    BitsAtSplit(s, q, len, inverse);
    SixteenBits();
    NumberReads(s, q, |octets|, 16);
    NumberReads(s, q + 16, 0xFFFF - |octets|, 16);
    StoredReads(s, q + 32, octets);
    WithinBits(s, q + 32, OctetBits(octets));
  }

  lemma SixteenBits()
    ensures Pow2(16) == 0x1_0000
  {
    Powers(13);
  }

  lemma WithinBits(s: Bits, p: nat, b: Bits)
    requires BitsAt(s, p, b)
    ensures p + |b| <= |s|
  {
  }

  // ---- Matches -----------------------------------------------------------------------------------

  /** A match repeats what stands `distance` octets before it, octet by octet, also where the two overlap. */
  lemma {:induction false} MatchRepeats(out: seq<nat>, length: nat, distance: nat)
    requires 0 < distance <= |out|
    ensures var r := CopyMatch(out, length, distance);
            out <= r && forall i :: |out| <= i < |r| ==> r[i] == r[i - distance]
    decreases length
  {
    if length > 0 {
      var next := out + [out[|out| - distance]];
      MatchRepeats(next, length - 1, distance);
      var r := CopyMatch(out, length, distance);
      assert r[..|next|] == next;
      assert r[|out|] == next[|out|] && r[|out| - distance] == next[|out| - distance];
    }
  }
}
