/** The encoder side of canonical Huffman codes: code assignment with 16-bit arithmetic and the plain bit writer. */
module HuffmanEncoder {
  import opened Options
  import opened Bits
  import opened Format
  import opened Canonical

  // ---- The plain bit writer ---------------------------------------------------------------------

  /** The bits of a string of octets, each a number below 256. */
  function OctetBits(octets: seq<nat>): (s: Bits)
    ensures |s| == 8 * |octets|
  {
    if octets == [] then []
    else OctetBits(octets[..|octets| - 1]) + NatBits(octets[|octets| - 1], 8)
  }

  predicate AllOctets(octets: seq<nat>) {
    forall i :: 0 <= i < |octets| ==> octets[i] < 256
  }

  lemma OctetBitsAppend(octets: seq<nat>, o: nat)
    ensures OctetBits(octets + [o]) == OctetBits(octets) + NatBits(o, 8)
  {
    assert (octets + [o])[..|octets|] == octets;
  }

  /** Putting a number above the bits of another one. */
  lemma {:induction false} NatBitsConcat(low: nat, c: nat, high: nat, b: nat)
    requires low < Pow2(c)
    ensures NatBits(low + high * Pow2(c), c + b) == NatBits(low, c) + NatBits(high, b)
    decreases c
  {
    if c > 0 {
      NatBitsConcat(low / 2, c - 1, high, b);
      var w := high * Pow2(c - 1);
      assert high * Pow2(c) == 2 * w by {
        assert Pow2(c) == 2 * Pow2(c - 1);
        Reassociate(high, 2, Pow2(c - 1));
      }
      assert (low + 2 * w) / 2 == low / 2 + w && (low + 2 * w) % 2 == low % 2;
    }
  }

  lemma Reassociate(a: nat, b: nat, c: nat)
    ensures a * (b * c) == b * (a * c)
  {
  }

  lemma {:induction false} NatBitsOfZero(n: nat)
    ensures NatBits(0, n) == Zeros(n)
  {
    if n > 0 {
      NatBitsOfZero(n - 1);
    }
  }

  lemma Pow2Of8()
    ensures Pow2(8) == 256
  {
    assert Pow2(4) == 16;
  }

  /** Taking the lowest octet off a number. */
  lemma NatBitsSplit(x: nat, n: nat)
    requires n >= 8
    ensures NatBits(x, n) == NatBits(x % 256, 8) + NatBits(x / 256, n - 8)
  {
    Pow2Of8();
    NatBitsConcat(x % 256, 8, x / 256, n - 8);
  }

  lemma {:induction false} Pow2Add(a: nat, b: nat)
    ensures Pow2(a + b) == Pow2(a) * Pow2(b)
  {
    if a > 0 {
      Pow2Add(a - 1, b);
    }
  }

  lemma ConcatBound(low: nat, c: nat, high: nat, b: nat)
    requires low < Pow2(c) && high < Pow2(b)
    ensures low + high * Pow2(c) < Pow2(c + b)
  {
    hide Pow2;
    Pow2Add(c, b);
    MulMonotone(Pow2(c), high + 1, Pow2(b));
    Distribute(Pow2(c), high);
  }

  lemma MulMonotone(w: nat, a: nat, b: nat)
    requires a <= b
    ensures w * a <= w * b
  {
  }

  lemma Distribute(w: nat, k: nat)
    ensures w * (k + 1) == k * w + w
  {
  }

  lemma {:induction false} Pow2Monotone(a: nat, b: nat)
    requires a <= b
    ensures Pow2(a) <= Pow2(b)
    decreases b - a
  {
    if a < b {
      Pow2Monotone(a, b - 1);
    }
  }

  class BitWriter {
    var out: seq<nat>
    var bitbuf: nat
    var bitcount: nat
    var totalBits: nat

    ghost predicate Valid()
      reads this
    {
      && bitcount < 8 && bitbuf < Pow2(bitcount)
      && (forall i :: 0 <= i < |out| ==> out[i] < 256)
      && totalBits == |View()|
    }

    ghost function View(): Bits
      reads this
    {
      OctetBits(out) + NatBits(bitbuf, bitcount)
    }

    constructor ()
      ensures Valid() && View() == []
    {
      out, bitbuf, bitcount, totalBits := [], 0, 0, 0;
    }

    /** The field must fit its width: the writer does not mask it. */
    method WriteBits(value: nat, bits: nat)
      requires Valid() && bits <= 32 && value < Pow2(bits)
      modifies this
      ensures Valid() && View() == old(View()) + NatBits(value, bits)
    {
      hide NatBits, OctetBits, Pow2;
      ghost var v := View();
      NatBitsConcat(bitbuf, bitcount, value, bits);
      ConcatBound(bitbuf, bitcount, value, bits);
      // the shifted field and the buffer share no bit: | is +
      bitbuf := bitbuf + value * Pow2(bitcount);
      bitcount := bitcount + bits;
      totalBits := totalBits + bits;
      assert View() == v + NatBits(value, bits);
      while bitcount >= 8
        invariant bitbuf < Pow2(bitcount) && totalBits == |View()|
        invariant forall i :: 0 <= i < |out| ==> out[i] < 256
        invariant View() == v + NatBits(value, bits)
        decreases bitcount
      {
        NatBitsSplit(bitbuf, bitcount);
        OctetBitsAppend(out, bitbuf % 256);
        OctetQuotient(bitbuf, bitcount);
        out := out + [bitbuf % 256];
        bitbuf := bitbuf / 256;
        bitcount := bitcount - 8;
      }
    }

    /** The octets, the last one completed with zero bits. */
    method Finish() returns (octets: seq<nat>)
      requires Valid()
      ensures OctetBits(octets) == View() + Zeros(PadTo8(|View()|))
      ensures AllOctets(octets)
    {
      hide NatBits, OctetBits, Pow2;
      octets := out;
      if bitcount > 0 {
        FillOctet(bitbuf, bitcount);
        OctetBitsAppend(out, bitbuf % 256);
        octets := octets + [bitbuf % 256];
      }
      assert OctetBits(octets) == View() + Zeros(PadTo8(|View()|));
    }
  }

  lemma OctetQuotient(x: nat, n: nat)
    requires n >= 8 && x < Pow2(n)
    ensures x / 256 < Pow2(n - 8)
  {
    Pow2Of8();
    Pow2Add(8, n - 8);
  }

  lemma FillOctet(x: nat, c: nat)
    requires 0 < c < 8 && x < Pow2(c)
    ensures x % 256 == x && NatBits(x, 8) == NatBits(x, c) + Zeros(8 - c)
  {
    hide Pow2, NatBits;
    Pow2Of8();
    Pow2Monotone(c, 8);
    NatBitsConcat(x, c, 0, 8 - c);
    NatBitsOfZero(8 - c);
  }

  // ---- Assigning codes --------------------------------------------------------------------------

  method ReverseBits(value: nat, bitLen: nat) returns (r: nat)
    ensures r == Value(CodeBits(value, bitLen)) && r < Pow2(bitLen)
  {
    hide CodeBits;
    var out: nat, rest: nat := 0, value;
    EmptyCode(value);
    for i := 0 to bitLen
      invariant out == Value(CodeBits(value, i)) && rest == value / Pow2(i)
    {
      CodeBitsTop(value, i);
      PrependValue(rest % 2 == 1, CodeBits(value, i));
      out := 2 * out + rest % 2;
      DivByTwo(value, Pow2(i));
      rest := rest / 2;
    }
    ValueBound(CodeBits(value, bitLen));
    return out;
  }

  lemma EmptyCode(v: nat)
    ensures Value(CodeBits(v, 0)) == 0 && v / Pow2(0) == v
  {
  }

  lemma PrependValue(x: bool, b: Bits)
    ensures Value([x] + b) == (if x then 1 else 0) + 2 * Value(b)
  {
    assert ([x] + b)[1..] == b;
  }

  lemma DivByTwo(v: nat, w: nat)
    requires w > 0
    ensures v / w / 2 == v / (2 * w)
  {
    HalfQuotient(v, w);
  }

  /** A 16-bit addition and shift as the source computes them. */
  function Wrap16(x: nat): nat {
    x % 0x1_0000
  }

  function Sat16(x: nat): nat {
    if x >= 0xFFFF then 0xFFFF else x
  }

  function SatInc16(x: nat): nat {
    Sat16(x + 1)
  }

  /** A code as the stream writer needs it: bit-reversed, with its length; length 0 stands for no code. */
  datatype CodeEntry = CodeEntry(code: nat, bits: nat)

  function EntryOf(lengths: seq<nat>, sym: nat): CodeEntry
    requires sym < |lengths|
  {
    if lengths[sym] == 0 then CodeEntry(0, 0) else CodeEntry(Value(SymbolBits(lengths, sym)), lengths[sym])
  }

  predicate CountTable(table: seq<nat>, lengths: seq<nat>, maxBits: nat) {
    && |table| == maxBits + 1 && table[0] == 0
    && forall b :: 1 <= b <= maxBits ==> table[b] == Sat16(Count(lengths, b))
  }

  /** Counting stops at 65535. */
  method CountLengths(lengths: seq<nat>, maxBits: nat) returns (r: Option<seq<nat>>)
    ensures r.Some? <==> forall i :: 0 <= i < |lengths| ==> lengths[i] <= maxBits
    ensures r.Some? ==> CountTable(r.value, lengths, maxBits)
  {
    var blCount := new nat[maxBits + 1](_ => 0);
    for i := 0 to |lengths|
      invariant forall k :: 0 <= k < i ==> lengths[k] <= maxBits
      invariant CountTable(blCount[..], lengths[..i], maxBits)
    {
      var len := lengths[i];
      if len > maxBits {
        return None;
      }
      if len > 0 {
        blCount[len] := SatInc16(blCount[len]);
      }
      assert lengths[..i + 1][..i] == lengths[..i];
    }
    assert lengths[..|lengths|] == lengths;
    return Some(blCount[..]);
  }

  lemma NoWrap(lengths: seq<nat>, maxBits: nat, bits: nat)
    requires Kraft(lengths, maxBits) && maxBits <= 15 && 1 <= bits <= maxBits
    ensures FirstCode(lengths, bits) + Count(lengths, bits) <= 0x8000
  {
    hide Count;
    FirstCodeIsSum(lengths, bits);
    KraftBelow(lengths, maxBits, bits);
    Pow2Monotone(bits, 15);
    Pow2Of8();
    assert Pow2(15) == 0x8000;
  }

  function NextCode(code: nat, count: nat): nat {
    Wrap16(2 * Wrap16(code + count))
  }

  lemma NextCodeExact(lengths: seq<nat>, maxBits: nat, bits: nat)
    requires Kraft(lengths, maxBits) && maxBits <= 15 && 1 <= bits <= maxBits
    ensures bits == 1 ==> FirstCode(lengths, bits) == NextCode(0, 0)
    ensures bits > 1 ==> FirstCode(lengths, bits) == NextCode(FirstCode(lengths, bits - 1), Count(lengths, bits - 1))
  {
    hide Count, Kraft;
    NoWrap(lengths, maxBits, bits);
    if bits > 1 {
      NoWrap(lengths, maxBits, bits - 1);
    }
  }

  method FirstCodes(blCount: seq<nat>, maxBits: nat, ghost lengths: seq<nat>) returns (nextCode: array<nat>)
    requires CountTable(blCount, lengths, maxBits)
    ensures fresh(nextCode) && nextCode.Length == maxBits + 1
    ensures Kraft(lengths, maxBits) && maxBits <= 15 ==>
              forall b :: 1 <= b <= maxBits ==> nextCode[b] == FirstCode(lengths, b)
  {
    hide Count, Kraft, NextCode, FirstCode;
    ghost var good := Kraft(lengths, maxBits) && maxBits <= 15;
    nextCode := new nat[maxBits + 1](_ => 0);
    var code: nat := 0;
    for bits := 1 to maxBits + 1
      invariant bits == 1 ==> code == 0
      invariant good ==>
        && (bits > 1 ==> code == FirstCode(lengths, bits - 1))
        && forall b :: 1 <= b < bits ==> nextCode[b] == FirstCode(lengths, b)
    {
      if good {
        NextCodeExact(lengths, maxBits, bits);
        if bits > 1 {
          NoWrap(lengths, maxBits, bits - 1);
        }
      }
      code := NextCode(code, blCount[bits - 1]);
      nextCode[bits] := code;
    }
  }

  /** Every symbol with a length gets its canonical code; only a length above the limit is refused. */
  method BuildCanonicalCodes(lengths: seq<nat>, maxBits: nat) returns (r: Option<seq<CodeEntry>>)
    ensures r.None? <==> exists i :: 0 <= i < |lengths| && lengths[i] > maxBits
    ensures r.Some? ==> |r.value| == |lengths|
    ensures Kraft(lengths, maxBits) && maxBits <= 15 ==>
              r.Some? && forall sym :: 0 <= sym < |lengths| ==> r.value[sym] == EntryOf(lengths, sym)
  {
    hide Count, FirstCode, Kraft, NextOk, EntryOf;
    ghost var good := Kraft(lengths, maxBits) && maxBits <= 15;
    var blCount := CountLengths(lengths, maxBits);
    if blCount.None? {
      if Kraft(lengths, maxBits) {
        KraftLimits(lengths, maxBits);
      }
      return None;
    }
    var nextCode := FirstCodes(blCount.value, maxBits, lengths);
    if good {
      NextStart(nextCode[..], lengths, maxBits);
    }
    var out := new CodeEntry[|lengths|](_ => CodeEntry(0, 0));
    for symbol := 0 to |lengths|
      invariant good ==> NextOk(nextCode[..], lengths, maxBits, symbol)
      invariant good ==> forall k :: 0 <= k < symbol ==> out[k] == EntryOf(lengths, k)
      invariant forall k :: symbol <= k < |lengths| ==> out[k] == CodeEntry(0, 0)
    {
      var len := lengths[symbol];
      ghost var before := nextCode[..];
      if good {
        NextStep(before, lengths, maxBits, symbol);
      }
      if len != 0 {
        var canonical := nextCode[len];
        nextCode[len] := SatInc16(nextCode[len]);
        assert nextCode[..] == before[len := SatInc16(before[len])];
        var code := ReverseBits(canonical, len);
        out[symbol] := CodeEntry(code, len);
      }
    }
    return Some(out[..]);
  }

  /** The table of next codes after the first `i` symbols. */
  ghost predicate NextOk(next: seq<nat>, lengths: seq<nat>, maxBits: nat, i: nat)
    requires i <= |lengths|
  {
    |next| == maxBits + 1 && forall b :: 1 <= b <= maxBits ==> next[b] == FirstCode(lengths, b) + Count(lengths[..i], b)
  }

  lemma NextStart(next: seq<nat>, lengths: seq<nat>, maxBits: nat)
    requires |next| == maxBits + 1 && forall b :: 1 <= b <= maxBits ==> next[b] == FirstCode(lengths, b)
    ensures NextOk(next, lengths, maxBits, 0)
  {
    hide FirstCode;
    assert lengths[..0] == [];
  }

  /** The next symbol: its code is in the table, and taking the following one keeps the table right. */
  lemma NextStep(next: seq<nat>, lengths: seq<nat>, maxBits: nat, i: nat)
    requires Kraft(lengths, maxBits) && maxBits <= 15 && i < |lengths| && NextOk(next, lengths, maxBits, i)
    ensures lengths[i] <= maxBits
    ensures var len := lengths[i];
            if len == 0 then NextOk(next, lengths, maxBits, i + 1) && EntryOf(lengths, i) == CodeEntry(0, 0)
            else NextOk(next[len := SatInc16(next[len])], lengths, maxBits, i + 1)
                 && EntryOf(lengths, i) == CodeEntry(Value(CodeBits(next[len], len)), len)
  {
    hide Count, FirstCode, CodeBits, Value, Kraft;
    KraftLimits(lengths, maxBits);
    CountStep(lengths, i);
    if lengths[i] > 0 {
      NoWrap(lengths, maxBits, lengths[i]);
      RankBelowCount(lengths, i);
    }
  }

  lemma KraftLimits(lengths: seq<nat>, maxBits: nat)
    requires Kraft(lengths, maxBits)
    ensures forall i :: 0 <= i < |lengths| ==> lengths[i] <= maxBits
  {
  }

  lemma CountStep(lengths: seq<nat>, i: nat)
    requires i < |lengths|
    ensures forall b: nat :: Count(lengths[..i + 1], b) == Count(lengths[..i], b) + if lengths[i] == b then 1 else 0
  {
    assert lengths[..i + 1][..i] == lengths[..i];
  }

  // ---- Writing and reading back -----------------------------------------------------------------

  predicate InAlphabet(lengths: seq<nat>, message: seq<nat>) {
    forall i :: 0 <= i < |message| ==> message[i] < |lengths|
  }

  /** The codes of a symbol sequence, one behind the other. */
  function MessageBits(lengths: seq<nat>, message: seq<nat>): Bits
    requires InAlphabet(lengths, message)
  {
    if message == [] then []
    else MessageBits(lengths, message[..|message| - 1]) + SymbolBits(lengths, message[|message| - 1])
  }

  predicate Encodable(lengths: seq<nat>, message: seq<nat>) {
    forall i :: 0 <= i < |message| ==> message[i] < |lengths| && lengths[message[i]] > 0
  }

  method WriteSymbol(w: BitWriter, codes: seq<CodeEntry>, sym: nat, ghost lengths: seq<nat>, ghost maxBits: nat)
    requires w.Valid() && Kraft(lengths, maxBits) && maxBits <= 15 && sym < |lengths| == |codes| && lengths[sym] > 0
    requires codes[sym] == EntryOf(lengths, sym)
    modifies w
    ensures w.Valid() && w.View() == old(w.View()) + SymbolBits(lengths, sym)
  {
    hide Code, CodeBits, Value;
    ValueBound(SymbolBits(lengths, sym));
    NatBitsOfValue(SymbolBits(lengths, sym));
    w.WriteBits(codes[sym].code, codes[sym].bits);
  }

  method WriteMessage(w: BitWriter, codes: seq<CodeEntry>, message: seq<nat>, ghost lengths: seq<nat>,
      ghost maxBits: nat)
    requires w.Valid() && Kraft(lengths, maxBits) && maxBits <= 15 && |codes| == |lengths|
    requires Encodable(lengths, message)
    requires forall sym :: 0 <= sym < |lengths| ==> codes[sym] == EntryOf(lengths, sym)
    modifies w
    ensures w.Valid() && w.View() == old(w.View()) + MessageBits(lengths, message)
  {
    hide EntryOf, SymbolBits, Kraft, MessageBits, OctetBits, BitWriter.View, BitWriter.Valid;
    ghost var v := w.View();
    NoMessage(lengths, message, v);
    for i := 0 to |message|
      invariant w.Valid() && w.View() == v + MessageBits(lengths, message[..i])
    {
      WriteSymbol(w, codes, message[i], lengths, maxBits);
      MessageMore(lengths, message, i, v);
    }
    assert message[..|message|] == message;
  }

  lemma NoMessage(lengths: seq<nat>, message: seq<nat>, v: Bits)
    requires Encodable(lengths, message)
    ensures InAlphabet(lengths, message[..0]) && v + MessageBits(lengths, message[..0]) == v
  {
  }

  lemma MessageMore(lengths: seq<nat>, message: seq<nat>, i: nat, v: Bits)
    requires Encodable(lengths, message) && i < |message|
    ensures InAlphabet(lengths, message[..i]) && InAlphabet(lengths, message[..i + 1])
    ensures v + MessageBits(lengths, message[..i + 1])
          == v + MessageBits(lengths, message[..i]) + SymbolBits(lengths, message[i])
  {
    hide SymbolBits;
    assert message[..i + 1][..i] == message[..i];
    var a, b := MessageBits(lengths, message[..i]), SymbolBits(lengths, message[i]);
    assert v + (a + b) == v + a + b;
  }

  /** Reads `n` symbols. */
  function DecodeMessage(s: Bits, p: nat, lengths: seq<nat>, n: nat): Parse<seq<nat>> {
    if n == 0 then Ok([], p)
    else
      match DecodeMessage(s, p, lengths, n - 1)
      case Fail(e) => Fail(e)
      case Ok(message, q) =>
        match DecodeSymbol(s, q, lengths)
        case Fail(e) => Fail(e)
        case Ok(sym, r) => Ok(message + [sym], r)
  }

  /** Canonical Huffman round trip: what is written for a symbol sequence reads back as that sequence, and
      reading stops right behind it, whatever surrounds it. */
  lemma {:induction false} MessageRoundTrip(
    lengths: seq<nat>, maxBits: nat, message: seq<nat>, before: Bits, after: Bits)
    requires Kraft(lengths, maxBits) && Encodable(lengths, message)
    ensures var bits := MessageBits(lengths, message);
            DecodeMessage(before + bits + after, |before|, lengths, |message|) == Ok(message, |before| + |bits|)
    decreases |message|
  {
    hide SymbolBits, DecodeSymbol, Kraft;
    if message != [] {
      var init, sym := message[..|message| - 1], message[|message| - 1];
      var bits := MessageBits(lengths, init);
      var code := SymbolBits(lengths, sym);
      MessageRoundTrip(lengths, maxBits, init, before, code + after);
      FourParts(before, bits, code, after);
      SymbolReadsBack(lengths, maxBits, sym, before + bits, after);
      assert init + [sym] == message;
    }
  }

  lemma FourParts(a: Bits, b: Bits, c: Bits, d: Bits)
    ensures a + (b + c) + d == a + b + (c + d) == a + b + c + d
  {
  }

  lemma SymbolReadsBack(lengths: seq<nat>, maxBits: nat, sym: nat, before: Bits, after: Bits)
    requires Kraft(lengths, maxBits) && sym < |lengths| && lengths[sym] > 0
    ensures var code := SymbolBits(lengths, sym);
            DecodeSymbol(before + code + after, |before|, lengths) == Ok(sym, |before| + |code|)
  {
    hide Code, DecodeSymbol, Kraft;
    var code := SymbolBits(lengths, sym);
    var s := before + code + after;
    assert s[|before|..|before| + |code|] == code;
    DecodeCode(s, |before|, lengths, maxBits, sym);
  }
}
