/** What the GPU coders write for the chosen tokens: in the fixed codes, and in planned codes that are looked up. */
module GpuCoder {
  import opened Bits
  import opened Format
  import opened Canonical
  import opened HuffmanEncoder
  import opened DynamicPlan
  import opened DynamicBlock
  import opened CodeTables
  import opened Totals
  import opened GpuScan
  import opened GpuSymbols
  import opened GpuTokens
  import opened GpuPack

  // ---- Adding bits to a field --------------------------------------------------------------------

  lemma {:induction false} ModOfShifted(v: nat, c: nat, n: nat)
    ensures v * Pow2(c) % Pow2(c + n) == v % Pow2(n) * Pow2(c)
  {
    hide Pow2;
    var w, m := Pow2(c), Pow2(n);
    Pow2Add(c, n);
    var q, r := v / m, v % m;
    assert v * w == q * (w * m) + r * w by {
      assert v == q * m + r;
      Spread(q, m, r, w);
    }
    assert r * w < w * m by {
      assert r + 1 <= m;
      MulMonotone(w, r + 1, m);
      Distribute(w, r);
    }
    ModUnique(v * w, w * m, q, r * w);
  }

  lemma Spread(q: nat, m: nat, r: nat, w: nat)
    ensures (q * m + r) * w == q * (w * m) + r * w
  {
    assert (q * m + r) * w == q * m * w + r * w;
    assert q * m * w == q * (w * m);
  }

  lemma ModUnique(x: nat, w: nat, q: nat, r: nat)
    requires w > 0 && x == q * w + r && r < w
    ensures x % w == r
  {
    DivUnique(x, w, q, r);
  }

  lemma QuotientFits(v: nat, c: nat, n: nat)
    requires v < Pow2(c + n)
    ensures v / Pow2(c) < Pow2(n)
  {
    hide Pow2;
    Pow2Add(c, n);
    var w, q := Pow2(c), v / Pow2(c);
    assert w * q <= v;
    if q >= Pow2(n) {
      MulMonotone(w, Pow2(n), q);
    }
  }

  /** A value behind a low word that it overflows. */
  lemma LowOverflows(low: nat, cur: nat, value: nat, bits: nat)
    requires cur < 32 < cur + bits && bits <= 32 && low < Pow2(cur) && value < Pow2(bits)
    ensures low + Shl32(value, cur) < WORD && Shr32(value, 32 - cur) < Pow2(cur + bits - 32)
    ensures NatBits(low + Shl32(value, cur), 32) + NatBits(Shr32(value, 32 - cur), cur + bits - 32)
            == NatBits(low, cur) + NatBits(value, bits)
  {
    hide NatBits, Pow2;
    var n: nat := 32 - cur;
    var rest: nat := cur + bits - 32;
    WordIsPow();
    ModOfShifted(value, cur, n);
    var inside := value % Pow2(n);
    Pow2Of0(n);
    ConcatBound(low, cur, inside, n);
    NatBitsConcat(low, cur, inside, n);
    LowBitsOnly(value, n, 0);
    ShiftedDown(value, n, rest);
    QuotientFits(value, n, rest);
    Join3(NatBits(low, cur), NatBits(value, n), NatBits(Shr32(value, n), rest));
  }

  lemma Join3(a: Bits, b: Bits, c: Bits)
    ensures a + b + c == a + (b + c)
  {
  }

  /** Behind the bits of a field come those of a value, in the low word as far as they fit. */
  method AppendBits(f: Field, value: nat, bits: nat) returns (r: Field)
    requires f.Ok() && value < Pow2(bits) && bits <= 32 && f.bits + bits <= 64
    ensures r.Ok() && r.bits == f.bits + bits && r.Written() == f.Written() + NatBits(value, bits)
  {
    hide NatBits, Pow2, Shl32, Shr32;
    WordIsPow();
    if bits == 0 {
      NothingAppended(value);
      return f;
    }
    var cur := f.bits;
    // the bits of the value and those of the field do not meet: | is +
    if cur < 32 {
      if cur + bits <= 32 {
        NatBitsConcat(f.low, cur, value, bits);
        ConcatBound(f.low, cur, value, bits);
        Pow2Monotone(cur + bits, 32);
        return Field(f.low + value * Pow2(cur), 0, cur + bits);
      }
      LowOverflows(f.low, cur, value, bits);
      return Field(f.low + Shl32(value, cur), Shr32(value, 32 - cur), cur + bits);
    }
    NatBitsConcat(f.high, cur - 32, value, bits);
    HighPart(f);
    ConcatBound(f.high, cur - 32, value, bits);
    Join3(NatBits(f.low, 32), NatBits(f.high, cur - 32), NatBits(value, bits));
    return Field(f.low, f.high + value * Pow2(cur - 32), cur + bits);
  }

  lemma NothingAppended(value: nat)
    ensures NatBits(value, 0) == []
  {
  }

  lemma HighPart(f: Field)
    requires f.Ok() && f.bits >= 32
    ensures f.high < Pow2(f.bits - 32) && f.Written() == NatBits(f.low, 32) + NatBits(f.high, f.bits - 32)
  {
    hide NatBits;
    if f.bits == 32 {
      NothingAppended(f.high);
    }
  }

  lemma EmptyField()
    ensures Field(0, 0, 0).Ok() && Field(0, 0, 0).Written() == []
  {
  }

  // ---- The fixed codes ---------------------------------------------------------------------------

  /** A bit string is determined by the number that it spells. */
  lemma SpelledIsCode(b: Bits, v: nat)
    requires Spells(b, v)
    ensures b == CodeBits(v, |b|)
  {
    hide CodeBits, Pow2;
    forall j | 0 <= j < |b|
      ensures b[j] == CodeBits(v, |b|)[j]
    {
      CodeBitAt(v, |b|, j);
    }
  }

  /** The code of a literal or length symbol as the fixed coder computes it. */
  method FixedSymbol(symbol: nat) returns (code: nat, bits: nat)
    requires symbol <= 285
    ensures bits <= 9 && code < Pow2(bits) && NatBits(code, bits) == SymbolBits(FixedTrees().lit, symbol)
  {
    hide CodeBits, NatBits, SymbolBits, FixedTrees, Spells, Pow2;
    FixedLiteralCodes(symbol);
    ghost var b := SymbolBits(FixedTrees().lit, symbol);
    var number := 0;
    if symbol <= 143 {
      number, bits := 0x30 + symbol, 8;
    } else if symbol < 256 {
      number, bits := 0x190 + (symbol - 144), 9;
    } else if symbol <= 279 {
      number, bits := symbol - 256, 7;
    } else {
      number, bits := 0xC0 + (symbol - 280), 8;
    }
    code := ReverseBits(number, bits);
    SpelledIsCode(b, number);
    NatBitsOfValue(b);
  }

  method FixedDistance(symbol: nat) returns (code: nat)
    requires symbol <= 29
    ensures code < Pow2(5) && NatBits(code, 5) == SymbolBits(FixedTrees().dist, symbol)
  {
    hide CodeBits, NatBits, SymbolBits, FixedTrees, Spells, Pow2;
    FixedDistanceCodes(symbol);
    code := ReverseBits(symbol, 5);
    SpelledIsCode(SymbolBits(FixedTrees().dist, symbol), symbol);
    NatBitsOfValue(SymbolBits(FixedTrees().dist, symbol));
  }

  lemma FixedHasCode(w: Coded)
    requires InRange(w)
    ensures HasCode(w, FixedTrees().lit, FixedTrees().dist)
  {
    FixedServesAll([w]);
    assert [w][0] == w;
  }

  lemma ExtraBits(w: Coded)
    requires InRange(w) && w.Copy?
    ensures LENGTH_EXTRA_BITS[w.lenIndex] <= 5 && DIST_EXTRA_BITS[w.distSym] <= 13
  {
    hide Pow2;
    if w.lenIndex < 28 {
      LengthRanges(w.lenIndex);
    } else {
      LengthRanges(0);
    }
    DistanceRanges(w.distSym);
  }

  /** A token in the fixed codes. */
  method FixedField(t: Token) returns (f: Field, ghost w: Coded)
    requires Codable(t)
    ensures CodeOf(t, w) && HasCode(w, FixedTrees().lit, FixedTrees().dist)
    ensures f.Ok() && f.Written() == TokenBits(w, FixedTrees().lit, FixedTrees().dist)
  {
    hide NatBits, SymbolBits, FixedTrees, Pow2, Field.Ok, Field.Written, HasCode;
    EmptyField();
    var c := CodeToken(t);
    w := c;
    FixedHasCode(w);
    match c
    case Octet(v) =>
      var code, bits := FixedSymbol(v);
      f := AppendBits(Field(0, 0, 0), code, bits);
    case Copy(l, le, d, de) =>
      ExtraBits(w);
      var code, bits := FixedSymbol(257 + l);
      f := AppendBits(Field(0, 0, 0), code, bits);
      f := AppendBits(f, le, LENGTH_EXTRA_BITS[l]);
      var distCode := FixedDistance(d);
      f := AppendBits(f, distCode, 5);
      f := AppendBits(f, de, DIST_EXTRA_BITS[d]);
  }

  // ---- The planned codes -------------------------------------------------------------------------

  /** The table of the two planned codes: for each, the codes of all symbols and then their lengths. */
  predicate TableOf(table: seq<nat>, lit: seq<nat>, dist: seq<nat>) {
    && |lit| == 286 && |dist| == 30 && Kraft(lit, 15) && Kraft(dist, 15)
    && table == CodeColumn(lit) + lit + CodeColumn(dist) + dist
  }

  /** Where the coder looks up codes and lengths. */
  lemma TableLookups(table: seq<nat>, lit: seq<nat>, dist: seq<nat>, sym: nat)
    requires TableOf(table, lit, dist)
    ensures |table| == 632
    ensures sym < 286 ==> table[sym] == EntryOf(lit, sym).code && table[286 + sym] == lit[sym]
    ensures sym < 30 ==> table[572 + sym] == EntryOf(dist, sym).code && table[602 + sym] == dist[sym]
  {
    hide EntryOf, Kraft;
  }

  /** The code of a symbol, looked up, is written as the symbol's bits. */
  lemma EntryWrites(lengths: seq<nat>, sym: nat)
    requires Kraft(lengths, 15) && sym < |lengths| && lengths[sym] > 0
    ensures var e := EntryOf(lengths, sym);
            lengths[sym] <= 15 && e.code < Pow2(lengths[sym])
            && NatBits(e.code, lengths[sym]) == SymbolBits(lengths, sym)
  {
    hide Code, CodeBits, Value;
    ValueBound(SymbolBits(lengths, sym));
    NatBitsOfValue(SymbolBits(lengths, sym));
  }

  /** A token in the planned codes. */
  method PlannedField(t: Token, table: seq<nat>, ghost lit: seq<nat>, ghost dist: seq<nat>, ghost w: Coded)
    returns (f: Field)
    requires Codable(t) && CodeOf(t, w) && TableOf(table, lit, dist) && HasCode(w, lit, dist)
    ensures f.Ok() && f.Written() == TokenBits(w, lit, dist)
  {
    hide NatBits, SymbolBits, Pow2, Field.Ok, Field.Written, TableOf, Kraft, EntryOf, CodeOf;
    EmptyField();
    TableKraft(table, lit, dist);
    var c := CodeToken(t);
    CodeIsUnique(t, c, w);
    CodedInRange(t, c);
    match c
    case Octet(v) =>
      TableLookups(table, lit, dist, v);
      EntryWrites(lit, v);
      f := AppendBits(Field(0, 0, 0), table[v], table[286 + v]);
    case Copy(l, le, d, de) =>
      ExtraBits(c);
      TableLookups(table, lit, dist, 257 + l);
      EntryWrites(lit, 257 + l);
      f := AppendBits(Field(0, 0, 0), table[257 + l], table[286 + (257 + l)]);
      f := AppendBits(f, le, LENGTH_EXTRA_BITS[l]);
      TableLookups(table, lit, dist, d);
      EntryWrites(dist, d);
      f := AppendBits(f, table[572 + d], table[602 + d]);
      f := AppendBits(f, de, DIST_EXTRA_BITS[d]);
  }

  lemma TableKraft(table: seq<nat>, lit: seq<nat>, dist: seq<nat>)
    requires TableOf(table, lit, dist)
    ensures Kraft(lit, 15) && Kraft(dist, 15)
  {
  }

  lemma CodedInRange(t: Token, w: Coded)
    requires CodeOf(t, w)
    ensures InRange(w)
  {
  }

  // ---- All tokens --------------------------------------------------------------------------------

  /** The codes of a list of tokens. */
  ghost predicate CodesOf(tokens: seq<Token>, ws: seq<Coded>) {
    |ws| == |tokens| && forall i :: 0 <= i < |tokens| ==> CodeOf(tokens[i], ws[i])
  }

  /** The codes of all tokens are in range, and they stand for the tokens. */
  lemma CodesAreTokens(tokens: seq<Token>, ws: seq<Coded>)
    requires CodesOf(tokens, ws)
    ensures (forall i :: 0 <= i < |ws| ==> InRange(ws[i])) && Tokens(ws) == tokens
  {
    hide InRange, TokenOf;
  }

  predicate AllHaveCodes(ws: seq<Coded>, lit: seq<nat>, dist: seq<nat>) {
    forall i :: 0 <= i < |ws| ==> InRange(ws[i]) && HasCode(ws[i], lit, dist)
  }

  /** The tokens' bits, one token behind the other. */
  function TokenRow(ws: seq<Coded>, lit: seq<nat>, dist: seq<nat>): Bits
    requires AllHaveCodes(ws, lit, dist)
  {
    if ws == [] then [] else TokenBits(ws[0], lit, dist) + TokenRow(ws[1..], lit, dist)
  }

  lemma {:induction false} TokenRowMore(ws: seq<Coded>, w: Coded, lit: seq<nat>, dist: seq<nat>)
    requires AllHaveCodes(ws, lit, dist) && InRange(w) && HasCode(w, lit, dist)
    ensures AllHaveCodes(ws + [w], lit, dist)
    ensures TokenRow(ws + [w], lit, dist) == TokenRow(ws, lit, dist) + TokenBits(w, lit, dist)
    decreases |ws|
  {
    hide InRange, HasCode, TokenBits;
    if ws == [] {
      assert (ws + [w])[1..] == [];
    } else {
      TokenRowMore(ws[1..], w, lit, dist);
      assert (ws + [w])[1..] == ws[1..] + [w];
    }
  }

  /** The payload of a block is the row of its tokens and the end-of-block symbol. */
  lemma {:induction false} PayloadIsRow(ws: seq<Coded>, lit: seq<nat>, dist: seq<nat>)
    requires Writable(ws, lit, dist)
    ensures AllHaveCodes(ws, lit, dist)
    ensures PayloadBits(ws, lit, dist) == TokenRow(ws, lit, dist) + SymbolBits(lit, 256)
    decreases |ws|
  {
    hide InRange, HasCode, TokenBits, SymbolBits;
    if ws != [] {
      PayloadIsRow(ws[1..], lit, dist);
    }
  }

  /** Fields without bits leave no trace. */
  lemma {:induction false} EmptyFieldsVanish(fields: seq<Field>, n: nat)
    requires FieldsOk(fields) && n <= |fields| && forall i :: n <= i < |fields| ==> fields[i].bits == 0
    ensures Row(fields) == Row(fields[..n])
    decreases |fields|
  {
    hide Field.Ok, Field.Written;
    if |fields| == n {
      assert fields[..n] == fields;
    } else {
      var init := fields[..|fields| - 1];
      EmptyFieldsVanish(init, n);
      assert init[..n] == fields[..n];
      NoBits(fields[|fields| - 1]);
    }
  }

  lemma NoBits(f: Field)
    requires f.Ok() && f.bits == 0
    ensures f.Written() == []
  {
  }

  lemma RowMore(fields: seq<Field>, f: Field)
    requires FieldsOk(fields) && f.Ok()
    ensures FieldsOk(fields + [f]) && Row(fields + [f]) == Row(fields) + f.Written()
  {
    hide Field.Ok, Field.Written;
    assert (fields + [f])[..|fields|] == fields;
  }

  function Flags(s: seq<Slot>): (r: seq<nat>)
    ensures |r| == |s| && forall i :: 0 <= i < |s| ==> r[i] == if s[i].flag then 1 else 0
  {
    seq(|s|, i requires 0 <= i < |s| => if s[i].flag then 1 else 0)
  }

  /** The tokens in front of position `i`. */
  function ChosenUpTo(s: seq<Slot>, i: nat): seq<Token>
    requires i <= |s|
  {
    if i == 0 then [] else ChosenUpTo(s, i - 1) + if s[i - 1].flag then [TokenOfSlot(s[i - 1])] else []
  }

  lemma {:induction false} ChosenSplit(s: seq<Slot>, i: nat)
    requires i <= |s|
    ensures ChosenUpTo(s, i) + Chosen(s, i) == Chosen(s, 0) && |ChosenUpTo(s, i)| == Total(Flags(s)[..i])
  {
    if i > 0 {
      ChosenSplit(s, i - 1);
      assert Flags(s)[..i][..i - 1] == Flags(s)[..i - 1];
    } else {
      assert Flags(s)[..0] == [];
    }
  }

  lemma ChosenNext(s: seq<Slot>, i: nat)
    requires i < |s|
    ensures s[i].flag ==> ChosenUpTo(s, i + 1) == ChosenUpTo(s, i) + [TokenOfSlot(s[i])]
    ensures !s[i].flag ==> ChosenUpTo(s, i + 1) == ChosenUpTo(s, i)
  {
  }

  predicate AllCodable(s: seq<Slot>) {
    forall i :: 0 <= i < |s| && s[i].flag ==> Codable(TokenOfSlot(s[i]))
  }

  lemma {:induction false} TilesCodable(data: seq<nat>, s: seq<Slot>, i: nat)
    requires i <= |s| == |data| && Tiles(data, s, i)
    ensures forall k :: i <= k < |s| && s[k].flag ==> Codable(TokenOfSlot(s[k]))
    decreases |s| - i
  {
    hide Repeats, Codable;
    if i < |s| {
      TilesCodable(data, s, i + Width(s[i]));
    }
  }

  /** The fixed coder: the token at position `i` gets the place that the prefix sum of the flags gives it; the places
      behind the last token keep no bits. */
  method FixedFields(s: seq<Slot>) returns (fields: seq<Field>, ghost ws: seq<Coded>)
    requires AllCodable(s)
    ensures |fields| == |s| && FieldsOk(fields) && CodesOf(Chosen(s, 0), ws)
    ensures AllHaveCodes(ws, FixedTrees().lit, FixedTrees().dist)
    ensures Row(fields) == TokenRow(ws, FixedTrees().lit, FixedTrees().dist)
  {
    hide Codable, FixedTrees, TokenBits, HasCode, InRange, CodeOf, Field.Ok, Field.Written, Total, Row, Prefixes;
    hide FieldsOk, AllHaveCodes, TokenRow, CodesOf;
    var tokenPrefix, count := PrefixScan(Flags(s));
    ghost var lit, dist := FixedTrees().lit, FixedTrees().dist;
    EmptyField();
    fields := seq(|s|, i => Field(0, 0, 0));
    ws := [];
    var tokens: nat := 0;
    NothingPlaced(fields, lit, dist);
    for i := 0 to |s|
      invariant |fields| == |s| && FieldsOk(fields) && tokens == |ChosenUpTo(s, i)| == |ws| <= i
      invariant forall k :: tokens <= k < |s| ==> fields[k] == Field(0, 0, 0)
      invariant CodesOf(ChosenUpTo(s, i), ws) && AllHaveCodes(ws, lit, dist)
      invariant FieldsOk(fields[..tokens]) && Row(fields[..tokens]) == TokenRow(ws, lit, dist)
    {
      ChosenSplit(s, i);
      ChosenNext(s, i);
      if s[i].flag {
        var f, w := FixedField(TokenOfSlot(s[i]));
        PrefixIs(tokenPrefix, s, i);
        var at := tokenPrefix[i];
        CodesMore(ChosenUpTo(s, i), ws, TokenOfSlot(s[i]), w);
        OnePlaced(fields, at, f, ws, w, lit, dist);
        fields := fields[at := f];
        ws := ws + [w];
        tokens := tokens + 1;
      }
    }
    ChosenSplit(s, |s|);
    assert ChosenUpTo(s, |s|) == Chosen(s, 0);
    EmptyFieldsVanish(fields, tokens);
  }

  lemma NoRow(fields: seq<Field>)
    ensures FieldsOk([]) && Row([]) == [] && fields[..0] == []
  {
  }

  lemma NothingPlaced(fields: seq<Field>, lit: seq<nat>, dist: seq<nat>)
    requires forall k :: 0 <= k < |fields| ==> fields[k] == Field(0, 0, 0)
    ensures FieldsOk(fields) && FieldsOk(fields[..0]) && AllHaveCodes([], lit, dist) && CodesOf([], [])
    ensures Row(fields[..0]) == TokenRow([], lit, dist)
  {
    hide Field.Ok, InRange, HasCode, CodeOf;
    EmptyField();
    NoRow(fields);
  }

  lemma OnePlaced(fields: seq<Field>, at: nat, f: Field, ws: seq<Coded>, w: Coded, lit: seq<nat>, dist: seq<nat>)
    requires FieldsOk(fields) && at < |fields| && f.Ok() && AllHaveCodes(ws, lit, dist)
    requires InRange(w) && HasCode(w, lit, dist) && f.Written() == TokenBits(w, lit, dist)
    requires FieldsOk(fields[..at]) && Row(fields[..at]) == TokenRow(ws, lit, dist)
    ensures FieldsOk(fields[at := f]) && FieldsOk(fields[at := f][..at + 1]) && AllHaveCodes(ws + [w], lit, dist)
    ensures Row(fields[at := f][..at + 1]) == TokenRow(ws + [w], lit, dist)
  {
    hide Field.Ok, Field.Written, Row, TokenRow, InRange, HasCode, TokenBits;
    TokenRowMore(ws, w, lit, dist);
    RowMore(fields[..at], f);
    assert fields[at := f][..at + 1] == fields[..at] + [f];
  }

  lemma CodesMore(tokens: seq<Token>, ws: seq<Coded>, t: Token, w: Coded)
    requires CodesOf(tokens, ws) && CodeOf(t, w)
    ensures CodesOf(tokens + [t], ws + [w]) && InRange(w)
  {
    hide CodeOf;
    CodedInRange(t, w);
  }

  lemma PrefixIs(prefix: seq<nat>, s: seq<Slot>, i: nat)
    requires Prefixes(prefix, Flags(s)) && i < |s|
    ensures |prefix| == |s| && prefix[i] == |ChosenUpTo(s, i)|
  {
    hide Total;
    ChosenSplit(s, i);
  }

  // ---- Counting symbols --------------------------------------------------------------------------

  /** How many of the coded tokens use a literal or length symbol. */
  function LitUses(ws: seq<Coded>, sym: nat): nat {
    if ws == [] then 0
    else
      var w := ws[|ws| - 1];
      LitUses(ws[..|ws| - 1], sym) + if (if w.Octet? then w.value else 257 + w.lenIndex) == sym then 1 else 0
  }

  function DistUses(ws: seq<Coded>, sym: nat): nat {
    if ws == [] then 0
    else
      var w := ws[|ws| - 1];
      DistUses(ws[..|ws| - 1], sym) + if w.Copy? && w.distSym == sym then 1 else 0
  }

  lemma {:induction false} UsesCounted(ws: seq<Coded>, k: nat)
    requires k < |ws|
    ensures LitUses(ws, if ws[k].Octet? then ws[k].value else 257 + ws[k].lenIndex) > 0
    ensures ws[k].Copy? ==> DistUses(ws, ws[k].distSym) > 0
    decreases |ws|
  {
    if k < |ws| - 1 {
      UsesCounted(ws[..|ws| - 1], k);
    }
  }

  /** The tables count the uses of every symbol. */
  predicate CountsUses(litlenFreq: seq<nat>, distFreq: seq<nat>, ws: seq<Coded>) {
    && |litlenFreq| == 286 && |distFreq| == 30
    && (forall sym :: 0 <= sym < 286 ==> litlenFreq[sym] == LitUses(ws, sym))
    && forall sym :: 0 <= sym < 30 ==> distFreq[sym] == DistUses(ws, sym)
  }

  lemma UsesMore(ws: seq<Coded>, w: Coded, sym: nat)
    ensures LitUses(ws + [w], sym)
            == LitUses(ws, sym) + if (if w.Octet? then w.value else 257 + w.lenIndex) == sym then 1 else 0
    ensures DistUses(ws + [w], sym) == DistUses(ws, sym) + if w.Copy? && w.distSym == sym then 1 else 0
  {
    assert (ws + [w])[..|ws|] == ws;
  }

  /** One token more. */
  lemma UseCounted(litlenFreq: seq<nat>, distFreq: seq<nat>, ws: seq<Coded>, w: Coded)
    requires CountsUses(litlenFreq, distFreq, ws)
    requires if w.Octet? then w.value < 256 else w.lenIndex < 29 && w.distSym < 30
    ensures var sym := if w.Octet? then w.value else 257 + w.lenIndex;
            CountsUses(litlenFreq[sym := litlenFreq[sym] + 1],
                       if w.Octet? then distFreq else distFreq[w.distSym := distFreq[w.distSym] + 1], ws + [w])
  {
    hide LitUses, DistUses;
    forall sym: nat
      ensures LitUses(ws + [w], sym)
              == LitUses(ws, sym) + if (if w.Octet? then w.value else 257 + w.lenIndex) == sym then 1 else 0
      ensures DistUses(ws + [w], sym) == DistUses(ws, sym) + if w.Copy? && w.distSym == sym then 1 else 0
    {
      UsesMore(ws, w, sym);
    }
  }

  lemma NothingCounted()
    ensures CountsUses(seq(286, i => 0), seq(30, i => 0), []) && CodesOf([], [])
  {
  }

  /** The frequency tables: every symbol of every chosen token is counted once. */
  method CountTokens(s: seq<Slot>) returns (litlenFreq: seq<nat>, distFreq: seq<nat>, ghost ws: seq<Coded>)
    requires AllCodable(s)
    ensures CodesOf(Chosen(s, 0), ws) && CountsUses(litlenFreq, distFreq, ws)
    ensures Counted(ws, litlenFreq, distFreq)
  {
    hide Codable, Total, CodesOf, CodeOf, LitUses, DistUses, TokenOfSlot;
    litlenFreq, distFreq := seq(286, i => 0), seq(30, i => 0);
    ws := [];
    NothingCounted();
    for i := 0 to |s|
      invariant CodesOf(ChosenUpTo(s, i), ws) && CountsUses(litlenFreq, distFreq, ws)
    {
      ChosenNext(s, i);
      if s[i].flag {
        var w := CodeToken(TokenOfSlot(s[i]));
        CodesMore(ChosenUpTo(s, i), ws, TokenOfSlot(s[i]), w);
        UseCounted(litlenFreq, distFreq, ws, w);
        match w {
          case Octet(v) => litlenFreq := litlenFreq[v := litlenFreq[v] + 1];
          case Copy(l, _, d, _) =>
            litlenFreq := litlenFreq[257 + l := litlenFreq[257 + l] + 1];
            distFreq := distFreq[d := distFreq[d] + 1];
        }
        ws := ws + [w];
      }
    }
    ChosenSplit(s, |s|);
    assert ChosenUpTo(s, |s|) == Chosen(s, 0);
    AreCounted(Chosen(s, 0), ws, litlenFreq, distFreq);
  }

  lemma AreCounted(tokens: seq<Token>, ws: seq<Coded>, litlenFreq: seq<nat>, distFreq: seq<nat>)
    requires CodesOf(tokens, ws) && CountsUses(litlenFreq, distFreq, ws)
    ensures Counted(ws, litlenFreq, distFreq)
  {
    hide LitUses, DistUses, Pow2;
    forall k | 0 <= k < |ws|
      ensures InRange(ws[k]) && HasCode(ws[k], litlenFreq, distFreq)
    {
      CodedInRange(tokens[k], ws[k]);
      UsesCounted(ws, k);
    }
  }

  /** The coder of planned codes: the token at position `i` stays at position `i`. */
  method PlannedFields(s: seq<Slot>, table: seq<nat>, ghost lit: seq<nat>, ghost dist: seq<nat>, ghost ws: seq<Coded>)
    returns (fields: seq<Field>)
    requires AllCodable(s) && CodesOf(Chosen(s, 0), ws) && TableOf(table, lit, dist) && AllHaveCodes(ws, lit, dist)
    ensures |fields| == |s| && FieldsOk(fields) && Row(fields) == TokenRow(ws, lit, dist)
  {
    hide Codable, TokenBits, HasCode, InRange, CodeOf, Field.Ok, Field.Written, Total, Row, TableOf;
    EmptyField();
    fields := [];
    NoRow([]);
    ghost var done: nat := 0;
    for i := 0 to |s|
      invariant |fields| == i && FieldsOk(fields) && done == |ChosenUpTo(s, i)| <= |ws|
      invariant Row(fields) == TokenRow(ws[..done], lit, dist)
    {
      ChosenSplit(s, i);
      if s[i].flag {
        assert Chosen(s, 0)[done] == TokenOfSlot(s[i]);
        var f := PlannedField(TokenOfSlot(s[i]), table, lit, dist, ws[done]);
        TokenRowMore(ws[..done], ws[done], lit, dist);
        assert ws[..done + 1] == ws[..done] + [ws[done]];
        RowMore(fields, f);
        fields := fields + [f];
        done := done + 1;
      } else {
        RowMore(fields, Field(0, 0, 0));
        fields := fields + [Field(0, 0, 0)];
      }
    }
    ChosenSplit(s, |s|);
    assert ws[..done] == ws;
  }
}
