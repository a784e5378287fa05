/** The symbols of lengths and distances as the GPU coders search them, and the codes and bits that they give a
    token. */
module GpuSymbols {
  import opened Format
  import opened DynamicBlock
  import opened CodeTables

  // ---- The symbol of a length or a distance ------------------------------------------------------

  function Clamp(v: nat, lo: nat, hi: nat): (r: nat)
    requires lo <= hi
    ensures lo <= r <= hi
  {
    if v < lo then lo else if v > hi then hi else v
  }

  /** The coded token has this length: the longest one in the symbol of its own. */
  predicate CodesLength(length: nat, symbol: nat, extraValue: nat, extraBits: nat) {
    && 257 <= symbol <= 285 && extraBits == LENGTH_EXTRA_BITS[symbol - 257] && extraValue < Pow2(extraBits)
    && LENGTH_BASE[symbol - 257] + extraValue == length && (length == 258 <==> symbol == 285)
  }

  predicate CodesDistance(distance: nat, symbol: nat, extraValue: nat, extraBits: nat) {
    && symbol <= 29 && extraBits == DIST_EXTRA_BITS[symbol] && extraValue < Pow2(extraBits)
    && DIST_BASE[symbol] + extraValue == distance
  }

  lemma ShortLength(i: nat)
    requires i < 8
    ensures LENGTH_BASE[i] == 3 + i && LENGTH_EXTRA_BITS[i] == 0 && Pow2(0) == 1
  {
  }

  lemma ShortDistance(d: nat)
    requires d < 4
    ensures DIST_BASE[d] == 1 + d && DIST_EXTRA_BITS[d] == 0 && Pow2(0) == 1
  {
  }

  lemma StartOfSearch()
    ensures LENGTH_BASE[8] == 11 && DIST_BASE[4] == 5
  {
  }

  /** Four symbols for every number of extra bits. Lengths outside of 3 to 258 are moved to the nearest of them. */
  method LitlenSymbolForLen(length: nat) returns (symbol: nat, extraValue: nat, extraBits: nat)
    ensures CodesLength(Clamp(length, 3, 258), symbol, extraValue, extraBits)
  {
    hide Pow2, LengthEnd;
    var mlen := Clamp(length, 3, 258);
    if mlen <= 10 {
      ShortLength(mlen - 3);
      return 254 + mlen, 0, 0;
    }
    if mlen == 258 {
      LengthRanges(27);
      ShortLength(0);
      return 285, 0, 0;
    }
    StartOfSearch();
    symbol, extraBits := 265, 1;
    var base := 11;
    while extraBits <= 5
      invariant 1 <= extraBits <= 6 && symbol == 265 + 4 * (extraBits - 1)
      invariant base <= mlen < 258 && (extraBits <= 5 ==> base == LENGTH_BASE[symbol - 257])
      invariant extraBits == 6 ==> base == LengthEnd(27)
      decreases 6 - extraBits
    {
      for j := 0 to 4
        invariant symbol == 265 + 4 * (extraBits - 1) + j && base <= mlen < 258
        invariant symbol <= 284 ==> base == LENGTH_BASE[symbol - 257]
        invariant symbol == 285 ==> base == LengthEnd(27)
      {
        NextLength(symbol, extraBits);
        var last := base + Pow2(extraBits) - 1;
        if base <= mlen <= last {
          return symbol, mlen - base, extraBits;
        }
        base := last + 1;
        symbol := symbol + 1;
      }
      extraBits := extraBits + 1;
    }
    LengthRanges(27);
    assert false;
  }

  /** The lengths of a symbol end where those of the next one start. */
  lemma NextLength(symbol: nat, extraBits: nat)
    requires 265 <= symbol <= 284 && extraBits == (symbol - 261) / 4
    ensures LENGTH_EXTRA_BITS[symbol - 257] == extraBits
    ensures LENGTH_BASE[symbol - 257] + Pow2(extraBits) == LengthEnd(symbol - 257)
    ensures symbol < 284 ==> LENGTH_BASE[symbol - 256] == LengthEnd(symbol - 257)
  {
    hide Pow2;
    LengthRanges(symbol - 257);
  }

  lemma NextDistance(symbol: nat, extraBits: nat)
    requires 4 <= symbol <= 29 && extraBits == (symbol - 2) / 2
    ensures DIST_EXTRA_BITS[symbol] == extraBits && DIST_BASE[symbol] + Pow2(extraBits) == DistEnd(symbol)
    ensures symbol < 29 ==> DIST_BASE[symbol + 1] == DistEnd(symbol)
  {
    hide Pow2;
    DistanceRanges(symbol);
  }

  /** Two symbols for every number of extra bits. */
  method DistSymbolForDist(distance: nat) returns (symbol: nat, extraValue: nat, extraBits: nat)
    requires distance <= 32768
    ensures CodesDistance(if distance < 1 then 1 else distance, symbol, extraValue, extraBits)
  {
    hide Pow2, DistEnd;
    var mdist := if distance < 1 then 1 else distance;
    if mdist <= 1 {
      ShortDistance(0);
      return 0, 0, 0;
    }
    if mdist <= 4 {
      ShortDistance(mdist - 1);
      return mdist - 1, 0, 0;
    }
    StartOfSearch();
    symbol, extraBits := 4, 1;
    var base := 5;
    while extraBits <= 13
      invariant 1 <= extraBits <= 14 && symbol == 4 + 2 * (extraBits - 1) && base <= mdist <= 32768
      invariant extraBits <= 13 ==> base == DIST_BASE[symbol]
      invariant extraBits == 14 ==> base == DistEnd(29)
      decreases 14 - extraBits
    {
      for j := 0 to 2
        invariant symbol == 4 + 2 * (extraBits - 1) + j && base <= mdist <= 32768
        invariant symbol <= 29 ==> base == DIST_BASE[symbol]
        invariant symbol == 30 ==> base == DistEnd(29)
      {
        NextDistance(symbol, extraBits);
        var last := base + Pow2(extraBits) - 1;
        if base <= mdist <= last {
          return symbol, mdist - base, extraBits;
        }
        base := last + 1;
        symbol := symbol + 1;
      }
      extraBits := extraBits + 1;
    }
    DistanceRanges(29);
    assert false;
  }

  // ---- Coded tokens ------------------------------------------------------------------------------

  /** A token that the GPU coders accept. */
  predicate Codable(t: Token) {
    match t
    case Literal(v) => v < 256
    case Match(length, distance) => 3 <= length <= 258 && 1 <= distance <= 32768
  }

  /** The code of a token: the last length has a symbol of its own. */
  predicate CodeOf(t: Token, w: Coded) {
    InRange(w) && TokenOf(w) == t && (t.Match? && t.length == 258 ==> w.Copy? && w.lenIndex == 28)
  }

  method CodeToken(t: Token) returns (w: Coded)
    requires Codable(t)
    ensures CodeOf(t, w)
  {
    hide Pow2;
    match t
    case Literal(v) =>
      return Octet(v);
    case Match(length, distance) =>
      var lenSym, lenValue, lenBits := LitlenSymbolForLen(length);
      var distSym, distValue, distBits := DistSymbolForDist(distance);
      return Copy(lenSym - 257, lenValue, distSym, distValue);
  }

  /** There is only one. */
  lemma CodeIsUnique(t: Token, a: Coded, b: Coded)
    requires CodeOf(t, a) && CodeOf(t, b)
    ensures a == b
  {
    hide Pow2, InRange;
    CodedOnce(a, b);
  }

}
