/** The DEFLATE bit format of RFC 1951: what a bit string means, independently of any reader. */
module Format {
  import opened Options
  import opened Bits

  datatype Error =
    | Truncated
    | BadCodeLength
    | EmptyTable
    | NoSymbol
    | RepeatWithoutPrevious
    | BadCodeLengthSymbol
    | RunOverflow
    | BadLiteralSymbol
    | BadDistanceSymbol
    | LengthMismatch
    | BadBlockType
    | EmptyChunk

  /** A parse of part of a bit string: a value and the position behind it. */
  datatype Parse<+T> = Ok(value: T, next: nat) | Fail(error: Error)

  const MAX_HUFF_BITS: nat := 15

  const LENGTH_EXTRA_BITS: seq<nat> :=
    [0, 0, 0, 0, 0, 0, 0, 0, 1, 1, 1, 1, 2, 2, 2, 2, 3, 3, 3, 3, 4, 4, 4, 4, 5, 5, 5, 5, 0]
  const LENGTH_BASE: seq<nat> :=
    [3, 4, 5, 6, 7, 8, 9, 10, 11, 13, 15, 17, 19, 23, 27, 31, 35, 43, 51, 59, 67, 83, 99, 115, 131, 163, 195, 227, 258]
  const DIST_EXTRA_BITS: seq<nat> :=
    [0, 0, 0, 0, 1, 1, 2, 2, 3, 3, 4, 4, 5, 5, 6, 6, 7, 7, 8, 8, 9, 9, 10, 10, 11, 11, 12, 12, 13, 13]
  const DIST_BASE: seq<nat> :=
    [1, 2, 3, 4, 5, 7, 9, 13, 17, 25, 33, 49, 65, 97, 129, 193, 257, 385, 513, 769,
     1025, 1537, 2049, 3073, 4097, 6145, 8193, 12289, 16385, 24577]
  const CODELEN_ORDER: seq<nat> := [16, 17, 18, 0, 8, 7, 9, 6, 10, 5, 11, 4, 12, 3, 13, 2, 14, 1, 15]

  // ---- Plain bit fields -------------------------------------------------------------------------

  /** The number written least significant bit first. */
  function Value(b: Bits): nat {
    if b == [] then 0 else (if b[0] then 1 else 0) + 2 * Value(b[1..])
  }

  function ReadBits(s: Bits, p: nat, n: nat): Parse<nat> {
    if n == 0 then Ok(0, p)
    else if p + n <= |s| then Ok(Value(s[p..p + n]), p + n)
    else Fail(Truncated)
  }

  function AlignToByte(p: nat): nat {
    (p + 7) / 8 * 8
  }

  // ---- Huffman codes (section 3.2.2) ------------------------------------------------------------

  /** How many symbols have code length `b`. */
  function Count(lengths: seq<nat>, b: nat): nat {
    if lengths == [] then 0
    else Count(lengths[..|lengths| - 1], b) + if lengths[|lengths| - 1] == b then 1 else 0
  }

  /** The symbol that comes `r`-th (from 0) among those of code length `b`. */
  function Nth(lengths: seq<nat>, b: nat, r: nat): (sym: nat)
    requires r < Count(lengths, b)
    ensures sym < |lengths| && lengths[sym] == b
  {
    var init := lengths[..|lengths| - 1];
    if r < Count(init, b) then Nth(init, b, r) else |lengths| - 1
  }

  function MaxLen(lengths: seq<nat>): nat {
    if lengths == [] then 0
    else
      var m := MaxLen(lengths[..|lengths| - 1]);
      if lengths[|lengths| - 1] > m then lengths[|lengths| - 1] else m
  }

  /** Reads one code of a canonical Huffman code, most significant code bit first. `code` holds the
      bits read so far followed by a zero, `first` is the first code of length `len`. */
  function DecodeFrom(s: Bits, p: nat, lengths: seq<nat>, len: nat, code: nat, first: nat): (r: Parse<nat>)
    requires 1 <= len
    ensures r.Ok? ==> p < r.next <= |s| && r.value < |lengths| && lengths[r.value] >= len
    decreases MaxLen(lengths) + 1 - len
  {
    if len > MaxLen(lengths) then Fail(NoSymbol)
    else if p >= |s| then Fail(Truncated)
    else
      var c := code + if s[p] then 1 else 0;
      var count := Count(lengths, len);
      if c >= first && c - first < count then Ok(Nth(lengths, len, c - first), p + 1)
      else DecodeFrom(s, p + 1, lengths, len + 1, 2 * c, 2 * (first + count))
  }

  function DecodeSymbol(s: Bits, p: nat, lengths: seq<nat>): (r: Parse<nat>)
    ensures r.Ok? ==> p < r.next <= |s| && r.value < |lengths| && lengths[r.value] >= 1
  {
    if MaxLen(lengths) == 0 then Fail(EmptyTable) else DecodeFrom(s, p, lengths, 1, 0, 0)
  }

  predicate Decodable(lengths: seq<nat>) {
    forall i :: 0 <= i < |lengths| ==> lengths[i] <= MAX_HUFF_BITS
  }

  // ---- Code tables (sections 3.2.6 and 3.2.7) ---------------------------------------------------

  datatype Trees = Trees(lit: seq<nat>, dist: seq<nat>)

  function Repeat(v: nat, n: nat): (r: seq<nat>)
    ensures |r| == n && forall i :: 0 <= i < n ==> r[i] == v
  {
    seq(n, i => v)
  }

  function FixedTrees(): Trees {
    Trees(Repeat(8, 144) + Repeat(9, 112) + Repeat(7, 24) + Repeat(8, 8), Repeat(5, 32))
  }

  /** The lengths of the code length alphabet, read in their transmission order. */
  function ReadCodeLenLengths(s: Bits, p: nat, idx: nat, hclen: nat, acc: seq<nat>): (r: Parse<seq<nat>>)
    requires idx <= hclen <= 19 && |acc| == 19
    ensures r.Ok? ==> p <= r.next && |r.value| == 19
    decreases hclen - idx
  {
    if idx == hclen then Ok(acc, p)
    else
      match ReadBits(s, p, 3)
      case Fail(e) => Fail(e)
      case Ok(v, q) => ReadCodeLenLengths(s, q, idx + 1, hclen, acc[CODELEN_ORDER[idx] := v])
  }

  /** One step of the run-length coded table: the lengths that a symbol of the code length alphabet adds. */
  function RunOf(s: Bits, p: nat, sym: nat, acc: seq<nat>): (r: Parse<seq<nat>>)
    ensures r.Ok? ==> p <= r.next && |r.value| >= 1
  {
    if sym <= 15 then Ok([sym], p)
    else if sym == 16 then
      if acc == [] then Fail(RepeatWithoutPrevious)
      else
        match ReadBits(s, p, 2)
        case Fail(e) => Fail(e)
        case Ok(v, q) => Ok(Repeat(acc[|acc| - 1], v + 3), q)
    else if sym == 17 then
      match ReadBits(s, p, 3)
      case Fail(e) => Fail(e)
      case Ok(v, q) => Ok(Repeat(0, v + 3), q)
    else if sym == 18 then
      match ReadBits(s, p, 7)
      case Fail(e) => Fail(e)
      case Ok(v, q) => Ok(Repeat(0, v + 11), q)
    else Fail(BadCodeLengthSymbol)
  }

  function ReadLengths(s: Bits, p: nat, codelen: seq<nat>, total: nat, acc: seq<nat>): (r: Parse<seq<nat>>)
    requires |acc| <= total
    ensures r.Ok? ==> p <= r.next && |r.value| == total
    decreases total - |acc|
  {
    if |acc| == total then Ok(acc, p)
    else
      match DecodeSymbol(s, p, codelen)
      case Fail(e) => Fail(e)
      case Ok(sym, q) =>
        match RunOf(s, q, sym, acc)
        case Fail(e) => Fail(e)
        case Ok(run, q') =>
          if |acc + run| > total then Fail(RunOverflow)
          else ReadLengths(s, q', codelen, total, acc + run)
  }

  function ReadDynamicTrees(s: Bits, p: nat): (r: Parse<Trees>)
    ensures r.Ok? ==> p < r.next
  {
    match ReadBits(s, p, 5)
    case Fail(e) => Fail(e)
    case Ok(hlit, p1) =>
      match ReadBits(s, p1, 5)
      case Fail(e) => Fail(e)
      case Ok(hdist, p2) =>
        match ReadBits(s, p2, 4)
        case Fail(e) => Fail(e)
        case Ok(hclen, p3) =>
          ValueBound(s[p2..p3]);
          ReadTables(s, p3, hlit + 257, hdist + 1, hclen + 4)
  }

  function ReadTables(s: Bits, p: nat, hlit: nat, hdist: nat, hclen: nat): (r: Parse<Trees>)
    requires hclen <= 19
    ensures r.Ok? ==> p <= r.next
  {
    match ReadCodeLenLengths(s, p, 0, hclen, Repeat(0, 19))
    case Fail(e) => Fail(e)
    case Ok(codelen, p4) =>
      match ReadLengths(s, p4, codelen, hlit + hdist, [])
      case Fail(e) => Fail(e)
      case Ok(lengths, p5) => Ok(Trees(lengths[..hlit], lengths[hlit..]), p5)
  }

  function Pow2(n: nat): (r: nat)
    ensures r >= 1
  {
    if n == 0 then 1 else 2 * Pow2(n - 1)
  }

  lemma ValueBound(b: Bits)
    ensures Value(b) < Pow2(|b|)
    ensures |b| == 4 ==> Value(b) < 16
  {
    if b != [] {
      ValueBound(b[1..]);
    }
    assert Pow2(4) == 16;
  }

  // ---- Blocks and streams (section 3.2.3) -------------------------------------------------------

  datatype Token = Literal(octet: nat) | Match(length: nat, distance: nat)

  datatype Block = Block(final: bool, tokens: seq<Token>)

  /** One literal, or a length and distance pair; none at the end-of-block symbol. */
  datatype Item = EndOfBlock | Item(token: Token)

  function ReadItem(s: Bits, p: nat, trees: Trees): (r: Parse<Item>)
    ensures r.Ok? ==> p < r.next <= |s|
  {
    match DecodeSymbol(s, p, trees.lit)
    case Fail(e) => Fail(e)
    case Ok(sym, q) =>
      if sym < 256 then Ok(Item(Literal(sym)), q)
      else if sym == 256 then Ok(EndOfBlock, q)
      else if sym > 285 then Fail(BadLiteralSymbol)
      else ReadMatch(s, q, sym - 257, trees.dist)
  }

  function ReadMatch(s: Bits, p: nat, lenIndex: nat, dist: seq<nat>): (r: Parse<Item>)
    requires lenIndex < 29
    ensures r.Ok? ==> p < r.next <= |s| && r.value.Item?
  {
    match ReadBits(s, p, LENGTH_EXTRA_BITS[lenIndex])
    case Fail(e) => Fail(e)
    case Ok(lenExtra, q) =>
      match DecodeSymbol(s, q, dist)
      case Fail(e) => Fail(e)
      case Ok(sym, q') =>
        if sym >= 30 then Fail(BadDistanceSymbol)
        else
          match ReadBits(s, q', DIST_EXTRA_BITS[sym])
          case Fail(e) => Fail(e)
          case Ok(distExtra, q'') =>
            Ok(Item(Match(LENGTH_BASE[lenIndex] + lenExtra, DIST_BASE[sym] + distExtra)), q'')
  }

  function ReadPayload(s: Bits, p: nat, trees: Trees): (r: Parse<seq<Token>>)
    ensures r.Ok? ==> p < r.next <= |s|
    decreases |s| - p
  {
    match ReadItem(s, p, trees)
    case Fail(e) => Fail(e)
    case Ok(EndOfBlock, q) => Ok([], q)
    case Ok(Item(t), q) =>
      match ReadPayload(s, q, trees)
      case Fail(e) => Fail(e)
      case Ok(ts, q') => Ok([t] + ts, q')
  }

  function StoredTokens(s: Bits, p: nat, len: nat): (r: seq<Token>)
    requires p + 8 * len <= |s|
    ensures |r| == len
  {
    seq(len, i requires 0 <= i < len => Literal(Value(s[p + 8 * i..p + 8 * i + 8])))
  }

  function ReadStored(s: Bits, p: nat): (r: Parse<seq<Token>>)
    ensures r.Ok? ==> p < r.next <= |s|
  {
    match ReadBits(s, AlignToByte(p), 16)
    case Fail(e) => Fail(e)
    case Ok(len, q) =>
      match ReadBits(s, q, 16)
      case Fail(e) => Fail(e)
      case Ok(nlen, q') =>
        if len + nlen != 0xFFFF then Fail(LengthMismatch)
        else if q' + 8 * len > |s| then Fail(Truncated)
        else Ok(StoredTokens(s, q', len), q' + 8 * len)
  }

  /** What follows the three header bits of a block. */
  function ReadBody(s: Bits, p: nat, btype: nat): (r: Parse<seq<Token>>)
    ensures r.Ok? ==> p < r.next <= |s|
  {
    if btype == 0 then ReadStored(s, p)
    else if btype == 1 then ReadPayload(s, p, FixedTrees())
    else if btype == 2 then
      match ReadDynamicTrees(s, p)
      case Fail(e) => Fail(e)
      case Ok(trees, q) => ReadPayload(s, q, trees)
    else Fail(BadBlockType)
  }

  function ReadBlock(s: Bits, p: nat): (r: Parse<Block>)
    ensures r.Ok? ==> p + 3 < r.next <= |s| && r.value.final == s[p]
  {
    match ReadBits(s, p, 1)
    case Fail(e) => Fail(e)
    case Ok(_, p1) =>
      match ReadBits(s, p1, 2)
      case Fail(e) => Fail(e)
      case Ok(btype, p3) =>
        match ReadBody(s, p3, btype)
        case Fail(e) => Fail(e)
        case Ok(tokens, q) => Ok(Block(s[p], tokens), q)
  }

  /** Where the final block of a stream starts and where the stream ends. */
  datatype Layout = Layout(finalHeaderBit: nat, endBit: nat)

  function LayoutFrom(s: Bits, p: nat): (r: Parse<Layout>)
    ensures r.Ok? ==> p <= r.value.finalHeaderBit < r.value.endBit == r.next <= |s|
    ensures r.Ok? ==> s[r.value.finalHeaderBit]
    decreases |s| - p
  {
    match ReadBlock(s, p)
    case Fail(e) => Fail(e)
    case Ok(b, q) => if b.final then Ok(Layout(p, q), q) else LayoutFrom(s, q)
  }

  // ---- Meaning ----------------------------------------------------------------------------------

  function CopyMatch(out: seq<nat>, length: nat, distance: nat): (r: seq<nat>)
    requires 0 < distance <= |out|
    ensures |r| == |out| + length
    decreases length
  {
    if length == 0 then out
    else CopyMatch(out + [out[|out| - distance]], length - 1, distance)
  }

  /** Appends what the tokens stand for to the output so far; no result when a match reaches too far back. */
  function Expand(tokens: seq<Token>, out: seq<nat>): Option<seq<nat>>
    decreases |tokens|
  {
    if tokens == [] then Some(out)
    else
      match tokens[0]
      case Literal(b) => Expand(tokens[1..], out + [b])
      case Match(length, distance) =>
        if 0 < distance <= |out| then Expand(tokens[1..], CopyMatch(out, length, distance)) else None
  }

  datatype Inflated = Inflated(out: seq<nat>, layout: Layout)

  /** Decompresses the blocks from `p` on, up to and including the first final one. */
  function InflateFrom(s: Bits, p: nat, out: seq<nat>): (r: Option<Inflated>)
    ensures r.Some? ==>
              var l := r.value.layout;
              p <= l.finalHeaderBit < l.endBit <= |s| && s[l.finalHeaderBit]
    decreases |s| - p
  {
    match ReadBlock(s, p)
    case Fail(_) => None
    case Ok(b, q) =>
      match Expand(b.tokens, out)
      case None => None
      case Some(out') =>
        if b.final then Some(Inflated(out', Layout(p, q))) else InflateFrom(s, q, out')
  }

  function Inflate(s: Bits): Option<Inflated> {
    InflateFrom(s, 0, [])
  }
}
