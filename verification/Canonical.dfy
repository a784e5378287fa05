/** Canonical Huffman codes (section 3.2.2 of RFC 1951): assigning them, writing them and reading them back. */
module Canonical {
  import opened Bits
  import opened Format

  // ---- Bit strings and numbers ------------------------------------------------------------------

  /** The `n` low bits of a number, least significant first. */
  function NatBits(v: nat, n: nat): (s: Bits)
    ensures |s| == n
    decreases n
  {
    if n == 0 then [] else [v % 2 == 1] + NatBits(v / 2, n - 1)
  }

  /** The `n` low bits of a number, most significant first. */
  function CodeBits(v: nat, n: nat): (s: Bits)
    ensures |s| == n
    decreases n
  {
    if n == 0 then [] else CodeBits(v / 2, n - 1) + [v % 2 == 1]
  }

  lemma {:induction false} ValueOfNatBits(v: nat, n: nat)
    requires v < Pow2(n)
    ensures Value(NatBits(v, n)) == v
    decreases n
  {
    if n > 0 {
      ValueOfNatBits(v / 2, n - 1);
      assert NatBits(v, n)[1..] == NatBits(v / 2, n - 1);
    }
  }

  lemma {:induction false} NatBitsOfValue(b: Bits)
    ensures NatBits(Value(b), |b|) == b
  {
    if b != [] {
      NatBitsOfValue(b[1..]);
      assert b == [b[0]] + b[1..];
    }
  }

  lemma {:induction false} CodeBitsTop(v: nat, n: nat)
    ensures CodeBits(v, n + 1) == [v / Pow2(n) % 2 == 1] + CodeBits(v, n)
    decreases n
  {
    if n > 0 {
      CodeBitsTop(v / 2, n - 1);
      DivTwice(v, Pow2(n - 1));
    }
  }

  lemma DivTwice(v: nat, w: nat)
    requires w > 0
    ensures v / 2 / w == v / (2 * w)
  {
    var q, r := v / (2 * w), v % (2 * w);
    assert v == 2 * w * q + r;
    assert v / 2 == w * q + r / 2;
    assert r / 2 < w;
    DivUnique(v / 2, w, q, r / 2);
  }

  lemma DivUnique(x: nat, w: nat, q: nat, r: nat)
    requires w > 0 && x == w * q + r && r < w
    ensures x / w == q
  {
    SmallMultiple(x / w - q, w, r - x % w);
  }

  lemma SmallMultiple(d: int, w: nat, x: int)
    requires d * w == x && -(w as int) < x < w
    ensures d == 0
  {
  }

  // ---- The code of a symbol ---------------------------------------------------------------------

  /** The smallest code of length `len`. */
  function FirstCode(lengths: seq<nat>, len: nat): nat {
    if len <= 1 then 0 else 2 * (FirstCode(lengths, len - 1) + Count(lengths, len - 1))
  }

  function Rank(lengths: seq<nat>, sym: nat): nat
    requires sym < |lengths|
  {
    Count(lengths[..sym], lengths[sym])
  }

  function Code(lengths: seq<nat>, sym: nat): nat
    requires sym < |lengths|
  {
    FirstCode(lengths, lengths[sym]) + Rank(lengths, sym)
  }

  /** The code of a symbol as it appears in the stream. */
  function SymbolBits(lengths: seq<nat>, sym: nat): Bits
    requires sym < |lengths|
  {
    CodeBits(Code(lengths, sym), lengths[sym])
  }

  /** The space that the codes of up to `len` bits take, in units of codes of `len` bits. */
  function KraftSum(lengths: seq<nat>, len: nat): nat {
    if len == 0 then 0 else 2 * KraftSum(lengths, len - 1) + Count(lengths, len)
  }

  /** Kraft's inequality for codes of at most `maxBits` bits. */
  predicate Kraft(lengths: seq<nat>, maxBits: nat) {
    KraftSum(lengths, maxBits) <= Pow2(maxBits) && forall i :: 0 <= i < |lengths| ==> lengths[i] <= maxBits
  }

  lemma {:induction false} KraftBelow(lengths: seq<nat>, maxBits: nat, len: nat)
    requires KraftSum(lengths, maxBits) <= Pow2(maxBits) && len <= maxBits
    ensures KraftSum(lengths, len) <= Pow2(len)
    decreases maxBits - len
  {
    if len < maxBits {
      KraftBelow(lengths, maxBits, len + 1);
    }
  }

  lemma {:induction false} FirstCodeIsSum(lengths: seq<nat>, len: nat)
    requires len >= 1
    ensures FirstCode(lengths, len) == 2 * KraftSum(lengths, len - 1)
    decreases len
  {
    if len > 1 {
      FirstCodeIsSum(lengths, len - 1);
    }
  }

  lemma {:induction false} RankBelowCount(lengths: seq<nat>, sym: nat)
    requires sym < |lengths|
    ensures Rank(lengths, sym) < Count(lengths, lengths[sym])
    ensures Nth(lengths, lengths[sym], Rank(lengths, sym)) == sym
    decreases |lengths|
  {
    var init := lengths[..|lengths| - 1];
    if sym < |lengths| - 1 {
      RankBelowCount(init, sym);
      assert init[..sym] == lengths[..sym];
    }
  }

  /** A symbol is the one with its length and rank. */
  lemma {:induction false} RankOfNth(lengths: seq<nat>, b: nat, r: nat)
    requires r < Count(lengths, b)
    ensures Rank(lengths, Nth(lengths, b, r)) == r
    decreases |lengths|
  {
    var init := lengths[..|lengths| - 1];
    if r < Count(init, b) {
      RankOfNth(init, b, r);
      var sym := Nth(init, b, r);
      assert init[..sym] == lengths[..sym];
    } else {
      assert lengths[..|lengths| - 1] == init;
    }
  }

  /** Under Kraft's inequality every code fits its length. */
  lemma CodeFits(lengths: seq<nat>, maxBits: nat, sym: nat)
    requires Kraft(lengths, maxBits) && sym < |lengths| && lengths[sym] > 0
    ensures Code(lengths, sym) < Pow2(lengths[sym])
  {
    hide Rank, Count, Nth;
    RankBelowCount(lengths, sym);
    FirstCodeIsSum(lengths, lengths[sym]);
    KraftBelow(lengths, maxBits, lengths[sym]);
  }

  // ---- Reading a code ---------------------------------------------------------------------------

  lemma HalfQuotient(v: nat, w: nat)
    requires w > 0
    ensures v / w == 2 * (v / (2 * w)) + v / w % 2
  {
    DivTwice(v, w);
    assert v / w / 2 == v / (2 * w) by {
      var q, r := v / (2 * w), v % (2 * w);
      assert v == w * (2 * q) + r;
      if r < w {
        DivUnique(v, w, 2 * q, r);
      } else {
        assert v == w * (2 * q + 1) + (r - w);
        DivUnique(v, w, 2 * q + 1, r - w);
      }
    }
  }

  lemma QuotientAtLeast(v: nat, w: nat, k: nat)
    requires w > 0 && v >= w * k
    ensures v / w >= k
  {
    assert v / w * w + v % w == v;
    var d := k - v / w;
    assert d * w <= v % w;
  }

  lemma {:induction false} CodeBitAt(v: nat, n: nat, i: nat)
    requires i < n
    ensures CodeBits(v, n)[i] == (v / Pow2(n - 1 - i) % 2 == 1)
    decreases n
  {
    if i < n - 1 {
      CodeBitAt(v / 2, n - 1, i);
      DivTwice(v, Pow2(n - 2 - i));
    }
  }

  /** Longer codes start behind everything that shorter codes take. */
  lemma {:induction false} KraftSumGrows(lengths: seq<nat>, len: nat, n: nat)
    requires len <= n
    ensures KraftSum(lengths, n) >= Pow2(n - len) * KraftSum(lengths, len)
    decreases n - len
  {
    if len < n {
      KraftSumGrows(lengths, len, n - 1);
      assert KraftSum(lengths, n) >= 2 * KraftSum(lengths, n - 1) && Pow2(n - len) == 2 * Pow2(n - 1 - len);
      hide KraftSum, Pow2;
      TwiceAsMuch(KraftSum(lengths, n), KraftSum(lengths, n - 1), Pow2(n - 1 - len), KraftSum(lengths, len));
    }
  }

  lemma TwiceAsMuch(s: nat, m: nat, w: nat, k: nat)
    requires s >= 2 * m && m >= w * k
    ensures s >= (2 * w) * k
  {
    assert (2 * w) * k == 2 * (w * k);
  }

  lemma FirstCodeGrows(lengths: seq<nat>, len: nat, n: nat)
    requires 1 <= len < n
    ensures FirstCode(lengths, n) >= Pow2(n - len) * KraftSum(lengths, len)
  {
    hide KraftSum;
    FirstCodeIsSum(lengths, n);
    KraftSumGrows(lengths, len, n - 1);
    var k, w := KraftSum(lengths, len), Pow2(n - 1 - len);
    assert 2 * (w * k) == 2 * w * k;
  }

  lemma LongCodeIsBehind(lengths: seq<nat>, sym: nat, len: nat)
    requires sym < |lengths| && 1 <= len < lengths[sym]
    ensures Code(lengths, sym) / Pow2(lengths[sym] - len) >= FirstCode(lengths, len) + Count(lengths, len)
  {
    hide Rank, Count, Pow2, FirstCode;
    var n := lengths[sym];
    FirstCodeIsSum(lengths, len);
    FirstCodeGrows(lengths, len, n);
    QuotientAtLeast(Code(lengths, sym), Pow2(n - len), KraftSum(lengths, len));
  }

  lemma {:induction false} MaxLenReached(lengths: seq<nat>, sym: nat)
    requires sym < |lengths|
    ensures lengths[sym] <= MaxLen(lengths)
  {
    if sym < |lengths| - 1 {
      MaxLenReached(lengths[..|lengths| - 1], sym);
    }
  }

  /** Having read the first bits of a symbol's code, the reader ends at that symbol. */
  lemma {:induction false} DecodeReaches(s: Bits, p: nat, lengths: seq<nat>, sym: nat, len: nat)
    requires sym < |lengths| && 1 <= len <= lengths[sym] && p + lengths[sym] <= |s|
    requires s[p..p + lengths[sym]] == SymbolBits(lengths, sym)
    ensures var passed := Code(lengths, sym) / (2 * Pow2(lengths[sym] - len));
            DecodeFrom(s, p + len - 1, lengths, len, 2 * passed, FirstCode(lengths, len)) == Ok(sym, p + lengths[sym])
    decreases lengths[sym] - len
  {
    hide Count, Nth, Rank;
    var n, v := lengths[sym], Code(lengths, sym);
    assert s[p + len - 1] == SymbolBits(lengths, sym)[len - 1];
    CodeBitAt(v, n, len - 1);
    HalfQuotient(v, Pow2(n - len));
    MaxLenReached(lengths, sym);
    if len < n {
      LongCodeIsBehind(lengths, sym, len);
      DecodeReaches(s, p, lengths, sym, len + 1);
    } else {
      RankBelowCount(lengths, sym);
      assert v / 1 == v;
    }
  }

  lemma SmallQuotient(v: nat, w: nat)
    requires v < w
    ensures v / w == 0
  {
  }

  /** Reading a symbol's own code yields the symbol. */
  lemma DecodeCode(s: Bits, p: nat, lengths: seq<nat>, maxBits: nat, sym: nat)
    requires Kraft(lengths, maxBits) && sym < |lengths| && lengths[sym] > 0 && p + lengths[sym] <= |s|
    requires s[p..p + lengths[sym]] == SymbolBits(lengths, sym)
    ensures DecodeSymbol(s, p, lengths) == Ok(sym, p + lengths[sym])
  {
    hide Code, SymbolBits, DecodeFrom, Count;
    var n, v := lengths[sym], Code(lengths, sym);
    MaxLenReached(lengths, sym);
    CodeFits(lengths, maxBits, sym);
    SmallQuotient(v, Pow2(n));
    DecodeReaches(s, p, lengths, sym, 1);
  }

  /** Whatever symbol is read, its code is what was read. */
  lemma {:induction false} DecodeFromIsCode(s: Bits, p: nat, lengths: seq<nat>, len: nat, v: nat)
    requires len >= 1 && p + len - 1 <= |s| && s[p..p + len - 1] == CodeBits(v, len - 1)
    requires DecodeFrom(s, p + len - 1, lengths, len, 2 * v, FirstCode(lengths, len)).Ok?
    ensures var r := DecodeFrom(s, p + len - 1, lengths, len, 2 * v, FirstCode(lengths, len));
            r.next == p + lengths[r.value] && s[p..r.next] == SymbolBits(lengths, r.value)
    decreases MaxLen(lengths) + 1 - len
  {
    hide Count, Nth, Rank;
    var c := 2 * v + if s[p + len - 1] then 1 else 0;
    var first, count := FirstCode(lengths, len), Count(lengths, len);
    assert s[p..p + len] == s[p..p + len - 1] + [s[p + len - 1]];
    assert c / 2 == v && CodeBits(c, len) == CodeBits(v, len - 1) + [c % 2 == 1];
    if c >= first && c - first < count {
      RankOfNth(lengths, len, c - first);
    } else {
      DecodeFromIsCode(s, p, lengths, len + 1, c);
    }
  }

  /** The reader accepts a symbol exactly where its canonical code stands. */
  lemma DecodeIff(s: Bits, p: nat, lengths: seq<nat>, maxBits: nat, sym: nat, q: nat)
    requires Kraft(lengths, maxBits) && p <= |s|
    ensures DecodeSymbol(s, p, lengths) == Ok(sym, q) <==>
            sym < |lengths| && lengths[sym] > 0 && q == p + lengths[sym] <= |s| && s[p..q] == SymbolBits(lengths, sym)
  {
    hide Code, SymbolBits;
    if DecodeSymbol(s, p, lengths) == Ok(sym, q) {
      assert s[p..p] == CodeBits(0, 0);
      DecodeFromIsCode(s, p, lengths, 1, 0);
    }
    if sym < |lengths| && lengths[sym] > 0 && q == p + lengths[sym] <= |s| && s[p..q] == SymbolBits(lengths, sym) {
      DecodeCode(s, p, lengths, maxBits, sym);
    }
  }

  /** No code is the beginning of another one. */
  lemma PrefixFree(lengths: seq<nat>, maxBits: nat, a: nat, b: nat)
    requires Kraft(lengths, maxBits) && a < |lengths| && b < |lengths| && lengths[a] > 0 && lengths[b] > 0
    requires SymbolBits(lengths, a) <= SymbolBits(lengths, b)
    ensures a == b
  {
    hide Code, DecodeSymbol;
    var s := SymbolBits(lengths, b);
    assert s[0..lengths[a]] == SymbolBits(lengths, a);
    assert s[0..lengths[b]] == s;
    DecodeCode(s, 0, lengths, maxBits, a);
    DecodeCode(s, 0, lengths, maxBits, b);
  }
}
