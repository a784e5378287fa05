/** The CZDI chunk index format, version 1: variable-length numbers, the entry table and the header. */
module Czdi {
  import opened Octets
  import opened ChunkIndex
  import Crc
  import CrcPolynomial

  datatype Error =
    | CountMismatch
    | NotMonotonic
    | DataTooLarge
    | HeaderTruncated
    | BadMagic
    | BadVersion
    | BadTableEncoding
    | TableTruncated
    | BadTableCrc
    | TruncatedUleb
    | UlebTooLarge
    | TrailingBytes

  datatype Result<+T> = Success(value: T) | Failure(error: Error) {
    predicate IsFailure() {
      Failure?
    }
    function PropagateFailure<U>(): Result<U>
      requires Failure?
    {
      Failure(error)
    }
    function Extract(): T
      requires Success?
    {
      value
    }
  }

  // ---- Variable-length numbers -------------------------------------------------------------------

  function Uleb(v: nat): (s: seq<Octet>)
    ensures |s| >= 1
  {
    if v < 128 then [v] else [v % 128 + 128] + Uleb(v / 128)
  }

  method AppendUleb128(out: seq<Octet>, value: nat) returns (r: seq<Octet>)
    ensures r == out + Uleb(value)
  {
    r := out;
    var rest := value;
    while true
      invariant r + Uleb(rest) == out + Uleb(value)
      decreases rest
    {
      var octet: nat := rest % 128;
      ghost var before := rest;
      rest := rest / 128;
      if rest != 0 {
        octet := octet + 128;
        assert r + Uleb(before) == r + [octet] + Uleb(rest);
      }
      r := r + [octet];
      if rest == 0 {
        return;
      }
    }
  }

  function Pow128(k: nat): (r: nat)
    ensures r >= 1
  {
    if k == 0 then 1 else 128 * Pow128(k - 1)
  }

  /** Seven bits shifted into place; bits shifted out of 64 are lost. */
  function Term(digit: nat, k: nat): nat {
    digit * Pow128(k) % (U64_MAX + 1)
  }

  /** Reading from the `k`-th octet on. */
  function UlebFrom(s: seq<Octet>, p: nat, k: nat, value: nat): (r: Result<(nat, nat)>)
    ensures r.Success? ==> p < r.value.1 <= |s|
    decreases 10 - k
  {
    if k >= 10 then Failure(UlebTooLarge)
    else if p >= |s| then Failure(TruncatedUleb)
    else
      var value' := value + Term(s[p] % 128, k);
      if s[p] < 128 then Success((value', p + 1)) else UlebFrom(s, p + 1, k + 1, value')
  }

  function ReadUleb(s: seq<Octet>, p: nat): (r: Result<(nat, nat)>)
    ensures r.Success? ==> p < r.value.1 <= |s|
  {
    UlebFrom(s, p, 0, 0)
  }

  method ReadUleb128(s: seq<Octet>, pos: nat) returns (r: Result<(nat, nat)>)
    ensures r == ReadUleb(s, pos)
  {
    hide Pow128;
    var value: nat, p: nat, weight: nat := 0, pos, 1;
    NoWeight();
    for k := 0 to 10
      invariant ReadUleb(s, pos) == UlebFrom(s, p, k, value) && weight == Pow128(k)
    {
      if p >= |s| {
        return Failure(TruncatedUleb);
      }
      var octet := s[p];
      p := p + 1;
      value := value + octet % 128 * weight % (U64_MAX + 1);
      if octet < 128 {
        return Success((value, p));
      }
      NextWeight(k);
      weight := 128 * weight;
    }
    return Failure(UlebTooLarge);
  }

  lemma NoWeight()
    ensures Pow128(0) == 1
  {
  }

  lemma NextWeight(k: nat)
    ensures Pow128(k + 1) == 128 * Pow128(k)
  {
  }

  lemma Pow128Values()
    ensures Pow128(9) == 0x8000_0000_0000_0000 && Pow128(10) > U64_MAX
  {
    assert Pow128(2) == 0x4000 && Pow128(4) == 0x1000_0000 && Pow128(6) == 0x400_0000_0000;
    assert Pow128(8) == 0x100_0000_0000_0000;
  }

  lemma {:induction false} Pow128Grows(a: nat, b: nat)
    requires a <= b
    ensures Pow128(a) <= Pow128(b)
    decreases b - a
  {
    if a < b {
      Pow128Grows(a, b - 1);
    }
  }

  /** A term of a 64-bit number is not cut off, and a number with ten terms before it does not exist. */
  lemma TermFits(low: nat, rest: nat, w: nat)
    requires low + rest * w <= U64_MAX && w >= 1
    ensures rest % 128 * w % (U64_MAX + 1) == rest % 128 * w
    ensures rest >= 128 ==> w <= U64_MAX / 128
    ensures low + rest * w == low + rest % 128 * w + rest / 128 * (128 * w)
  {
    var q, m := rest / 128, rest % 128;
    assert rest == 128 * q + m;
    assert rest * w == q * (128 * w) + m * w;
    assert m * w <= rest * w;
    if rest >= 128 {
      assert 128 * w <= rest * w;
    }
  }

  function Scaled(rest: nat, k: nat): nat {
    rest * Pow128(k)
  }

  lemma ScaledSplit(low: nat, rest: nat, k: nat)
    requires low + Scaled(rest, k) <= U64_MAX && k < 10
    ensures rest < 128 ==> Term(rest, k) == Scaled(rest, k)
    ensures low + Scaled(rest, k) == low + Term(rest % 128, k) + Scaled(rest / 128, k + 1)
    ensures rest >= 128 ==> k < 9
  {
    hide Pow128;
    TermFits(low, rest, Pow128(k));
    NextWeight(k);
    Pow128Values();
  }

  lemma {:induction false} UlebFromReads(s: seq<Octet>, p: nat, k: nat, low: nat, rest: nat)
    requires At(s, p, Uleb(rest)) && k < 10 && low + Scaled(rest, k) <= U64_MAX
    ensures UlebFrom(s, p, k, low) == Success((low + Scaled(rest, k), p + |Uleb(rest)|))
    decreases 10 - k
  {
    hide Term, Scaled;
    assert s[p] == s[p..p + |Uleb(rest)|][0];
    ScaledSplit(low, rest, k);
    if rest >= 128 {
      assert Uleb(rest) == [rest % 128 + 128] + Uleb(rest / 128);
      AtSplit(s, p, [rest % 128 + 128], Uleb(rest / 128));
      UlebFromReads(s, p + 1, k + 1, low + Term(rest % 128, k), rest / 128);
    }
  }

  /** Inversion: every 64-bit number reads back, at any position, whatever surrounds it. */
  lemma UlebReadsBack(s: seq<Octet>, p: nat, v: nat)
    requires v <= U64_MAX && At(s, p, Uleb(v))
    ensures ReadUleb(s, p) == Success((v, p + |Uleb(v)|))
  {
    hide Uleb, UlebFrom;
    NoWeight();
    UlebFromReads(s, p, 0, 0, v);
  }

  // ---- The entry table ---------------------------------------------------------------------------

  datatype Index = Index(
    chunkSize: nat,
    chunkCount: nat,
    uncompressedSize: nat,
    compressedSize: nat,
    entries: seq<IndexEntry>)

  /** The fields fit the integer types of the source. */
  predicate EntryTyped(e: IndexEntry) {
    e.compBitOff <= U64_MAX && e.compBitLen <= U32_MAX && e.finalHeaderRelBit <= U32_MAX && e.rawLen <= U32_MAX
  }

  predicate Typed(x: Index) {
    && x.chunkSize <= U32_MAX && x.chunkCount <= U32_MAX && x.uncompressedSize <= U64_MAX && x.compressedSize <= U64_MAX
    && forall i :: 0 <= i < |x.entries| ==> EntryTyped(x.entries[i])
  }

  /** The offset of the last of some entries; 0 before the first. */
  function LastOff(entries: seq<IndexEntry>): nat {
    if entries == [] then 0 else entries[|entries| - 1].compBitOff
  }

  function EntryBytes(delta: nat, e: IndexEntry): seq<Octet> {
    Uleb(delta) + Uleb(e.compBitLen) + Uleb(e.finalHeaderRelBit) + Uleb(e.rawLen)
  }

  function TableBytes(entries: seq<IndexEntry>): seq<Octet>
    requires Monotone(entries)
  {
    if entries == [] then []
    else
      var init, last := entries[..|entries| - 1], entries[|entries| - 1];
      TableBytes(init) + EntryBytes(last.compBitOff - LastOff(init), last)
  }

  method EncodeTable(entries: seq<IndexEntry>) returns (r: Result<seq<Octet>>)
    ensures if Monotone(entries) then r == Success(TableBytes(entries)) else r == Failure(NotMonotonic)
  {
    hide Uleb;
    var table: seq<Octet>, prev := [], 0;
    for i := 0 to |entries|
      invariant Monotone(entries[..i]) && table == TableBytes(entries[..i]) && prev == LastOff(entries[..i])
    {
      var e := entries[i];
      if i > 0 && e.compBitOff < prev {
        return Failure(NotMonotonic);
      }
      assert entries[..i + 1][..i] == entries[..i];
      var delta := e.compBitOff - prev;
      ghost var before := table;
      table := AppendUleb128(table, delta);
      table := AppendUleb128(table, e.compBitLen);
      table := AppendUleb128(table, e.finalHeaderRelBit);
      table := AppendUleb128(table, e.rawLen);
      assert table == before + EntryBytes(delta, e);
      prev := e.compBitOff;
    }
    assert entries[..|entries|] == entries;
    return Success(table);
  }

  /** One entry at a position, given the offset of the entry before it. */
  function ReadEntry(table: seq<Octet>, p: nat, first: bool, prev: nat): (r: Result<(IndexEntry, nat)>) {
    var delta :- ReadUleb(table, p);
    var len :- ReadUleb(table, delta.1);
    var fh :- ReadUleb(table, len.1);
    var raw :- ReadUleb(table, fh.1);
    if !first && prev + delta.0 > U64_MAX then Failure(DataTooLarge)
    else if len.0 > U32_MAX || fh.0 > U32_MAX || raw.0 > U32_MAX then Failure(DataTooLarge)
    else Success((IndexEntry(if first then delta.0 else prev + delta.0, len.0, fh.0, raw.0), raw.1))
  }

  function ReadEntries(table: seq<Octet>, p: nat, count: nat,
      before: seq<IndexEntry>): (r: Result<(seq<IndexEntry>, nat)>)
    requires |before| <= count
    decreases count - |before|
  {
    if |before| == count then Success((before, p))
    else
      var e :- ReadEntry(table, p, before == [], LastOff(before));
      ReadEntries(table, e.1, count, before + [e.0])
  }

  method DecodeEntry(table: seq<Octet>, pos: nat, first: bool, prev: nat) returns (r: Result<(IndexEntry, nat)>)
    ensures r == ReadEntry(table, pos, first, prev)
  {
    hide ReadUleb;
    var delta :- ReadUleb128(table, pos);
    var len :- ReadUleb128(table, delta.1);
    var fh :- ReadUleb128(table, len.1);
    var raw :- ReadUleb128(table, fh.1);
    var off := if first then delta.0 else prev + delta.0;
    if (!first && off > U64_MAX) || len.0 > U32_MAX || fh.0 > U32_MAX || raw.0 > U32_MAX {
      return Failure(DataTooLarge);
    }
    return Success((IndexEntry(off, len.0, fh.0, raw.0), raw.1));
  }

  method DecodeTable(table: seq<Octet>, count: nat) returns (r: Result<(seq<IndexEntry>, nat)>)
    ensures r == ReadEntries(table, 0, count, [])
  {
    hide ReadEntry;
    var entries: seq<IndexEntry>, pos: nat, prev: nat := [], 0, 0;
    for idx := 0 to count
      invariant |entries| == idx && prev == LastOff(entries)
      invariant ReadEntries(table, 0, count, []) == ReadEntries(table, pos, count, entries)
    {
      var e :- DecodeEntry(table, pos, idx == 0, prev);
      entries, pos, prev := entries + [e.0], e.1, e.0.compBitOff;
    }
    return Success((entries, pos));
  }

  lemma EntryReadsBack(table: seq<Octet>, p: nat, first: bool, prev: nat, e: IndexEntry)
    requires EntryTyped(e) && prev <= e.compBitOff && (first ==> prev == 0)
    requires At(table, p, EntryBytes(e.compBitOff - prev, e))
    ensures ReadEntry(table, p, first, prev) == Success((e, p + |EntryBytes(e.compBitOff - prev, e)|))
  {
    hide Uleb, ReadUleb, At;
    var a, b, c, d := Uleb(e.compBitOff - prev), Uleb(e.compBitLen), Uleb(e.finalHeaderRelBit), Uleb(e.rawLen);
    AtSplit(table, p, a + b + c, d);
    AtSplit(table, p, a + b, c);
    AtSplit(table, p, a, b);
    UlebReadsBack(table, p, e.compBitOff - prev);
    UlebReadsBack(table, p + |a|, e.compBitLen);
    UlebReadsBack(table, p + |a| + |b|, e.finalHeaderRelBit);
    UlebReadsBack(table, p + |a| + |b| + |c|, e.rawLen);
  }

  lemma {:induction false} TablePrefix(entries: seq<IndexEntry>, i: nat)
    requires Monotone(entries) && i <= |entries|
    ensures Monotone(entries[..i]) && TableBytes(entries[..i]) <= TableBytes(entries)
    decreases |entries|
  {
    hide EntryBytes;
    if i < |entries| {
      var init := entries[..|entries| - 1];
      TablePrefix(init, i);
      assert init[..i] == entries[..i];
    } else {
      assert entries[..i] == entries;
    }
  }

  lemma MonotoneMore(init: seq<IndexEntry>, last: IndexEntry)
    requires Monotone(init + [last])
    ensures Monotone(init) && LastOff(init) <= last.compBitOff
  {
    var entries := init + [last];
    if init != [] {
      assert entries[|init| - 1].compBitOff <= entries[|init|].compBitOff;
    }
    forall k | 1 <= k < |init|
      ensures init[k - 1].compBitOff <= init[k].compBitOff
    {
      assert entries[k - 1].compBitOff <= entries[k].compBitOff;
    }
  }

  lemma TableMore(init: seq<IndexEntry>, last: IndexEntry)
    requires Monotone(init + [last])
    ensures Monotone(init) && LastOff(init) <= last.compBitOff
    ensures TableBytes(init + [last]) == TableBytes(init) + EntryBytes(last.compBitOff - LastOff(init), last)
  {
    hide EntryBytes, Monotone, LastOff;
    MonotoneMore(init, last);
    assert (init + [last])[..|init|] == init;
  }

  lemma EntryPlace(entries: seq<IndexEntry>, i: nat)
    requires Monotone(entries) && i < |entries|
    ensures Monotone(entries[..i]) && LastOff(entries[..i]) <= entries[i].compBitOff
    ensures var delta := entries[i].compBitOff - LastOff(entries[..i]);
            && At(TableBytes(entries), |TableBytes(entries[..i])|, EntryBytes(delta, entries[i]))
            && Monotone(entries[..i + 1])
            && |TableBytes(entries[..i + 1])| == |TableBytes(entries[..i])| + |EntryBytes(delta, entries[i])|
  {
    hide EntryBytes, TableBytes, Monotone, LastOff;
    TablePrefix(entries, i);
    TablePrefix(entries, i + 1);
    assert entries[..i + 1] == entries[..i] + [entries[i]];
    TableMore(entries[..i], entries[i]);
    PartOfPrefix(TableBytes(entries), TableBytes(entries[..i]),
        EntryBytes(entries[i].compBitOff - LastOff(entries[..i]), entries[i]));
  }

  lemma PartOfPrefix(s: seq<Octet>, a: seq<Octet>, b: seq<Octet>)
    requires a + b <= s
    ensures At(s, |a|, b)
  {
    assert s[|a|..|a| + |b|] == (a + b)[|a|..];
  }

  /** Delta decoding: from the `i`-th entry on, the table reads back. */
  lemma {:induction false} TableReadsBack(entries: seq<IndexEntry>, i: nat)
    requires Monotone(entries) && i <= |entries| && forall k :: 0 <= k < |entries| ==> EntryTyped(entries[k])
    ensures Monotone(entries[..i])
    ensures ReadEntries(TableBytes(entries), |TableBytes(entries[..i])|, |entries|, entries[..i])
            == Success((entries, |TableBytes(entries)|))
    decreases |entries| - i
  {
    hide EntryBytes, ReadEntry, TableBytes, EntryTyped;
    if i < |entries| {
      EntryPlace(entries, i);
      EntryReadsBack(TableBytes(entries), |TableBytes(entries[..i])|, i == 0, LastOff(entries[..i]), entries[i]);
      TableReadsBack(entries, i + 1);
      assert entries[..i + 1] == entries[..i] + [entries[i]];
    } else {
      assert entries[..i] == entries;
    }
  }

  // ---- The whole index ---------------------------------------------------------------------------

  const HEADER_LEN: nat := 40
  const MAGIC: seq<Octet> := [67, 90, 68, 73]

  function NumberOf(w: bv32): nat {
    w as nat
  }

  function WordOf(v: nat): bv32
    requires v <= U32_MAX
  {
    v as bv32
  }

  lemma WordAgain(w: bv32)
    ensures NumberOf(w) <= U32_MAX && WordOf(NumberOf(w)) == w
  {
  }

  lemma DifferentNumbers(a: bv32, b: bv32)
    ensures a != b ==> NumberOf(a) != NumberOf(b)
  {
    hide NumberOf, WordOf;
    WordAgain(a);
    WordAgain(b);
  }

  /** The checksum of a table. */
  function TableCrc(table: seq<Octet>): (r: nat)
    ensures r <= U32_MAX
  {
    WordAgain(Crc.Crc32(ToBytes(table)));
    NumberOf(Crc.Crc32(ToBytes(table)))
  }

  /** Magic, version, flags and two reserved octets. */
  function HeaderStart(): (s: seq<Octet>)
    ensures |s| == 8
  {
    MAGIC + [1, 3] + Le(0, 2)
  }

  function ChunkFields(x: Index): (s: seq<Octet>)
    ensures |s| == 8
  {
    Le(x.chunkSize, 4) + Le(x.chunkCount, 4)
  }

  function SizeFields(x: Index): (s: seq<Octet>)
    ensures |s| == 16
  {
    Le(x.uncompressedSize, 8) + Le(x.compressedSize, 8)
  }

  function TableFields(table: seq<Octet>): (s: seq<Octet>)
    ensures |s| == 8
  {
    Le(|table|, 4) + Le(TableCrc(table), 4)
  }

  function HeaderBytes(x: Index, table: seq<Octet>): (s: seq<Octet>)
    ensures |s| == HEADER_LEN
  {
    HeaderStart() + ChunkFields(x) + SizeFields(x) + TableFields(table)
  }

  /** An index that can be encoded: as many entries as it says, in order, and a table whose length has a field. */
  predicate Encodable(x: Index) {
    x.chunkCount == |x.entries| && Monotone(x.entries) && |TableBytes(x.entries)| <= U32_MAX
  }

  method EncodeCzdiV1(x: Index) returns (r: Result<seq<Octet>>)
    ensures r.Success? <==> Encodable(x)
    ensures r.Success? ==> r.value == HeaderBytes(x, TableBytes(x.entries)) + TableBytes(x.entries)
    ensures r.Failure? ==> r.error == if x.chunkCount != |x.entries| then CountMismatch
                                      else if !Monotone(x.entries) then NotMonotonic else DataTooLarge
  {
    hide TableBytes, Le, TableCrc;
    if x.chunkCount != |x.entries| {
      return Failure(CountMismatch);
    }
    var table :- EncodeTable(x.entries);
    var out := MAGIC + [1, 1 + 2] + Le(0, 2);
    out := out + (Le(x.chunkSize, 4) + Le(x.chunkCount, 4));
    out := out + (Le(x.uncompressedSize, 8) + Le(x.compressedSize, 8));
    if |table| > U32_MAX {
      return Failure(DataTooLarge);
    }
    out := out + (Le(|table|, 4) + Le(TableCrc(table), 4));
    return Success(out + table);
  }

  datatype Header = Header(
    chunkSize: nat,
    chunkCount: nat,
    uncompressedSize: nat,
    compressedSize: nat,
    tableLen: nat,
    tableCrc: nat)

  function ParseHeader(s: seq<Octet>): Result<Header> {
    if |s| < HEADER_LEN then Failure(HeaderTruncated)
    else if s[..4] != MAGIC then Failure(BadMagic)
    else if s[4] != 1 then Failure(BadVersion)
    else if s[5] / 2 % 2 == 0 then Failure(BadTableEncoding)
    else Success(Header(FromLe(s[8..12]), FromLe(s[12..16]), FromLe(s[16..24]), FromLe(s[24..32]), FromLe(s[32..36]),
                        FromLe(s[36..40])))
  }

  /** What a byte string means as an index. */
  function Decoded(s: seq<Octet>): Result<Index> {
    var h :- ParseHeader(s);
    if HEADER_LEN + h.tableLen > |s| then Failure(TableTruncated)
    else
      var table := s[HEADER_LEN..HEADER_LEN + h.tableLen];
      if TableCrc(table) != h.tableCrc then Failure(BadTableCrc)
      else
        var e :- ReadEntries(table, 0, h.chunkCount, []);
        if e.1 != |table| then Failure(TrailingBytes)
        else Success(Index(h.chunkSize, h.chunkCount, h.uncompressedSize, h.compressedSize, e.0))
  }

  lemma StartPlaces(s: seq<Octet>)
    requires At(s, 0, HeaderStart())
    ensures |s| >= 8 && s[..4] == MAGIC && s[4] == 1 && s[5] == 3
  {
    hide Le;
    var a := HeaderStart();
    assert s[..8] == a;
    assert s[..4] == a[..4] && s[4] == a[4] && s[5] == a[5];
  }

  lemma HeaderFits(s: seq<Octet>, table: seq<Octet>)
    requires At(s, 36, Le(TableCrc(table), 4))
    ensures |s| >= HEADER_LEN
  {
    hide Le, TableCrc;
  }

  lemma HeaderParts(s: seq<Octet>, x: Index, table: seq<Octet>)
    requires At(s, 0, HeaderBytes(x, table))
    ensures At(s, 0, HeaderStart()) && At(s, 8, ChunkFields(x)) && At(s, 16, SizeFields(x))
    ensures At(s, 32, TableFields(table))
  {
    hide At, HeaderStart, ChunkFields, SizeFields, TableFields;
    AtSplit(s, 0, HeaderStart() + ChunkFields(x) + SizeFields(x), TableFields(table));
    AtSplit(s, 0, HeaderStart() + ChunkFields(x), SizeFields(x));
    AtSplit(s, 0, HeaderStart(), ChunkFields(x));
  }

  /** The fields of the header, where the reader looks for them. */
  lemma HeaderPlaces(s: seq<Octet>, x: Index, table: seq<Octet>)
    requires At(s, 0, HeaderBytes(x, table))
    ensures At(s, 0, HeaderStart())
    ensures At(s, 8, Le(x.chunkSize, 4)) && At(s, 12, Le(x.chunkCount, 4)) && At(s, 16, Le(x.uncompressedSize, 8))
    ensures At(s, 24, Le(x.compressedSize, 8)) && At(s, 32, Le(|table|, 4)) && At(s, 36, Le(TableCrc(table), 4))
  {
    hide Le, TableCrc, At, HeaderStart, HeaderBytes;
    HeaderParts(s, x, table);
    AtSplit(s, 8, Le(x.chunkSize, 4), Le(x.chunkCount, 4));
    AtSplit(s, 16, Le(x.uncompressedSize, 8), Le(x.compressedSize, 8));
    AtSplit(s, 32, Le(|table|, 4), Le(TableCrc(table), 4));
  }

  lemma HeaderReadsBack(s: seq<Octet>, x: Index, table: seq<Octet>)
    requires Typed(x) && |table| <= U32_MAX && At(s, 0, HeaderBytes(x, table))
    ensures ParseHeader(s) == Success(Header(x.chunkSize, x.chunkCount, x.uncompressedSize, x.compressedSize, |table|,
                                             TableCrc(table)))
  {
    hide Le, FromLe, TableCrc, At, HeaderBytes, Pow256;
    HeaderPlaces(s, x, table);
    StartPlaces(s);
    HeaderFits(s, table);
    Widths();
    FieldAt(s, 8, x.chunkSize, 4);
    FieldAt(s, 12, x.chunkCount, 4);
    FieldAt(s, 16, x.uncompressedSize, 8);
    FieldAt(s, 24, x.compressedSize, 8);
    FieldAt(s, 32, |table|, 4);
    FieldAt(s, 36, TableCrc(table), 4);
  }

  /** Round trip: every index that encodes decodes to itself, also when other bytes follow. */
  lemma CzdiRoundTrip(x: Index, tail: seq<Octet>)
    requires Typed(x) && Encodable(x)
    ensures Decoded(HeaderBytes(x, TableBytes(x.entries)) + TableBytes(x.entries) + tail) == Success(x)
  {
    hide ParseHeader, TableCrc, ReadEntries, HeaderBytes, TableBytes, EntryTyped;
    var table := TableBytes(x.entries);
    var s := HeaderBytes(x, table) + table + tail;
    assert At(s, 0, HeaderBytes(x, table));
    HeaderReadsBack(s, x, table);
    assert s[HEADER_LEN..HEADER_LEN + |table|] == table;
    TableReadsBack(x.entries, 0);
    EmptyTable(x.entries);
  }

  lemma EmptyTable(entries: seq<IndexEntry>)
    ensures entries[..0] == [] && Monotone([]) && TableBytes([]) == []
  {
  }

  /** The checksum of a table is CRC-32: its check value. */
  lemma TableCrcCheckValue()
    ensures TableCrc([0x31, 0x32, 0x33, 0x34, 0x35, 0x36, 0x37, 0x38, 0x39]) == 0xcbf4_3926
  {
    hide Crc.Crc32;
    CrcPolynomial.CheckValue();
    assert ToBytes([0x31, 0x32, 0x33, 0x34, 0x35, 0x36, 0x37, 0x38, 0x39]) == CrcPolynomial.DIGITS;
  }

  /** A table that was changed within four neighbouring octets is refused for its checksum. */
  lemma DamageIsRefused(x: Index, table: seq<Octet>, p: nat, n: nat, tail: seq<Octet>)
    requires Typed(x) && Encodable(x)
    requires CrcPolynomial.DifferWithin(ToBytes(TableBytes(x.entries)), ToBytes(table), p, n)
    ensures Decoded(HeaderBytes(x, TableBytes(x.entries)) + table + tail) == Failure(BadTableCrc)
  {
    hide ParseHeader, ReadEntries, HeaderBytes, TableBytes, EntryTyped, Crc.Crc32, NumberOf;
    var written := TableBytes(x.entries);
    var s := HeaderBytes(x, written) + table + tail;
    assert At(s, 0, HeaderBytes(x, written));
    HeaderReadsBack(s, x, written);
    assert s[HEADER_LEN..HEADER_LEN + |written|] == table;
    CrcPolynomial.ChangeIsNoticed(ToBytes(written), ToBytes(table), p, n);
    DifferentNumbers(Crc.Crc32(ToBytes(written)), Crc.Crc32(ToBytes(table)));
  }

  /** Whatever starts with an encoded index gives that index. */
  ghost predicate ReadsWritten(s: seq<Octet>, r: Result<Index>) {
    forall x :: Typed(x) && Encodable(x) && HeaderBytes(x, TableBytes(x.entries)) + TableBytes(x.entries) <= s
        ==> r == Success(x)
  }

  lemma WrittenIsRead(s: seq<Octet>)
    ensures ReadsWritten(s, Decoded(s))
  {
    hide Typed, HeaderBytes, TableBytes, Decoded;
    forall x | Typed(x) && Encodable(x) && HeaderBytes(x, TableBytes(x.entries)) + TableBytes(x.entries) <= s
      ensures Decoded(s) == Success(x)
    {
      var blob := HeaderBytes(x, TableBytes(x.entries)) + TableBytes(x.entries);
      CzdiRoundTrip(x, s[|blob|..]);
      assert blob + s[|blob|..] == s;
    }
  }

  // ---- Whatever is accepted encodes again --------------------------------------------------------

  lemma {:induction false} UlebShort(v: nat, n: nat)
    requires n >= 1 && v < Pow128(n)
    ensures |Uleb(v)| <= n
  {
    if v >= 128 {
      assert n > 1;
      assert v / 128 < Pow128(n - 1);
      UlebShort(v / 128, n - 1);
    }
  }

  lemma TopTerm(digit: nat)
    ensures digit * 0x8000_0000_0000_0000 % (U64_MAX + 1) <= 0x8000_0000_0000_0000
  {
    var q, r := digit / 2, digit % 2;
    assert digit * 0x8000_0000_0000_0000 == q * (U64_MAX + 1) + r * 0x8000_0000_0000_0000;
  }

  lemma TermBelow(low: nat, digit: nat, w: nat)
    requires low < w && digit < 128
    ensures low + digit * w % (U64_MAX + 1) < 128 * w
  {
    assert digit * w <= 127 * w;
    ModAtMost(digit * w, U64_MAX + 1);
  }

  lemma ModAtMost(x: nat, m: nat)
    requires m > 0
    ensures x % m <= x
  {
  }

  lemma TermSmall(low: nat, digit: nat, k: nat)
    requires low < Pow128(k) && digit < 128 && k < 10
    ensures low + Term(digit, k) < Pow128(k + 1) && low + Term(digit, k) <= U64_MAX
  {
    hide Pow128;
    NextWeight(k);
    TermBelow(low, digit, Pow128(k));
    Pow128Values();
    if k < 9 {
      Pow128Grows(k + 1, 9);
    } else {
      TopTerm(digit);
    }
  }

  /** A number that reads has 64 bits, and it was written in at least as many octets as it needs. */
  lemma {:induction false} UlebFromBound(s: seq<Octet>, p: nat, k: nat, low: nat)
    requires k < 10 && low < Pow128(k) && UlebFrom(s, p, k, low).Success?
    ensures var r := UlebFrom(s, p, k, low).value;
            r.0 <= U64_MAX && |Uleb(r.0)| <= k + (r.1 - p)
    decreases 10 - k
  {
    hide Term, Pow128, Uleb;
    TermSmall(low, s[p] % 128, k);
    if s[p] < 128 {
      UlebShort(low + Term(s[p] % 128, k), k + 1);
    } else {
      UlebFromBound(s, p + 1, k + 1, low + Term(s[p] % 128, k));
    }
  }

  lemma UlebBound(s: seq<Octet>, p: nat)
    requires ReadUleb(s, p).Success?
    ensures ReadUleb(s, p).value.0 <= U64_MAX && |Uleb(ReadUleb(s, p).value.0)| <= ReadUleb(s, p).value.1 - p
  {
    hide UlebFrom, Uleb;
    NoWeight();
    UlebFromBound(s, p, 0, 0);
  }

  lemma EntryBound(table: seq<Octet>, p: nat, first: bool, prev: nat)
    requires ReadEntry(table, p, first, prev).Success? && (first ==> prev == 0)
    ensures var (e, q) := ReadEntry(table, p, first, prev).value;
            EntryTyped(e) && prev <= e.compBitOff && |EntryBytes(e.compBitOff - prev, e)| <= q - p
  {
    hide ReadUleb, Uleb;
    var delta := ReadUleb(table, p).value;
    var len := ReadUleb(table, delta.1).value;
    var fh := ReadUleb(table, len.1).value;
    UlebBound(table, p);
    UlebBound(table, delta.1);
    UlebBound(table, len.1);
    UlebBound(table, fh.1);
  }

  lemma {:induction false} EntriesBound(table: seq<Octet>, p: nat, count: nat, before: seq<IndexEntry>)
    requires |before| <= count && ReadEntries(table, p, count, before).Success?
    requires Monotone(before) && (forall i :: 0 <= i < |before| ==> EntryTyped(before[i])) && |TableBytes(before)| <= p
    ensures var (entries, q) := ReadEntries(table, p, count, before).value;
            && |entries| == count && Monotone(entries) && |TableBytes(entries)| <= q
            && forall i :: 0 <= i < |entries| ==> EntryTyped(entries[i])
    decreases count - |before|
  {
    hide ReadEntry, EntryBytes, EntryTyped;
    if |before| < count {
      var e := ReadEntry(table, p, before == [], LastOff(before)).value;
      EntryBound(table, p, before == [], LastOff(before));
      assert (before + [e.0])[..|before|] == before;
      EntriesBound(table, e.1, count, before + [e.0]);
    }
  }

  /** The other direction: an index that decodes is one that encodes, so encoding and decoding it again keeps it. */
  lemma DecodedIsEncodable(s: seq<Octet>)
    requires Decoded(s).Success?
    ensures Typed(Decoded(s).value) && Encodable(Decoded(s).value)
  {
    hide ReadEntries, TableCrc, FromLe, EntryTyped, TableBytes;
    Widths();
    var h := ParseHeader(s).value;
    var table := s[HEADER_LEN..HEADER_LEN + h.tableLen];
    EmptyTable([]);
    EntriesBound(table, 0, h.chunkCount, []);
  }

  method DecodeCzdiV1(s: seq<Octet>) returns (r: Result<Index>)
    ensures r == Decoded(s)
    ensures ReadsWritten(s, r)
    ensures r.Success? ==> Typed(r.value) && Encodable(r.value)
  {
    hide ParseHeader, TableCrc, ReadEntries, ReadsWritten, Typed, Encodable;
    WrittenIsRead(s);
    if Decoded(s).Success? {
      DecodedIsEncodable(s);
    }
    var h :- ParseHeader(s);
    var tableEnd := HEADER_LEN + h.tableLen;
    if tableEnd > |s| {
      return Failure(TableTruncated);
    }
    var table := s[HEADER_LEN..tableEnd];
    if TableCrc(table) != h.tableCrc {
      return Failure(BadTableCrc);
    }
    var e :- DecodeTable(table, h.chunkCount);
    if e.1 != |table| {
      return Failure(TrailingBytes);
    }
    return Success(Index(h.chunkSize, h.chunkCount, h.uncompressedSize, h.compressedSize, e.0));
  }

  // ---- Written out -------------------------------------------------------------------------------

  /** Numbers in groups of seven bits, the lowest first. */
  lemma SmallUlebs()
    ensures Uleb(0) == [0] && Uleb(127) == [0x7F] && Uleb(128) == [0x80, 1] && Uleb(624485) == [0xE5, 0x8E, 0x26]
  {
  }

  /** The header starts with the letters CZDI, the version and the flags for an indexed stream and a table of varying
      widths. */
  lemma HeaderStartForm()
    ensures HeaderStart() == [0x43, 0x5A, 0x44, 0x49, 1, 3, 0, 0]
  {
    assert Le(0, 2) == [0, 0] by {
      assert Le(0, 1) == [0] + Le(0, 0);
    }
  }
}
