/** Reading back what the ZIP writer wrote. */
module ZipRoundTrip {
  import opened Options
  import opened Octets
  import opened ZipFormat
  import opened ZipParse
  import Czdi

  lemma AtWhole(s: seq<Octet>)
    ensures At(s, 0, s)
  {
    assert s[0..|s|] == s;
  }

  lemma SliceAt(s: seq<Octet>, p: nat, part: seq<Octet>)
    requires At(s, p, part)
    ensures Slice(s, p, |part|) == Success(part)
  {
  }

  lemma NumAt(s: seq<Octet>, p: nat, v: nat, n: nat)
    requires v < Pow256(n) && At(s, p, Le(v, n))
    ensures p + n <= |s| && Num(s, p, n) == v
  {
    hide Le, FromLe, Pow256;
    FieldAt(s, p, v, n);
  }

  // ---- The local header --------------------------------------------------------------------------

  lemma LocalStartNums(f: seq<Octet>)
    requires At(f, 0, LocalStart())
    ensures |f| >= 26 && Num(f, 0, 4) == LOCAL_FILE_HEADER_SIG
  {
    hide Le, FromLe, At, Pow256;
    Widths();
    AtSplit(f, 0, Le(LOCAL_FILE_HEADER_SIG, 4), Le(ZIP_VERSION_ZIP64, 2) + Le(GP_FLAGS, 2) + Le(DEFLATE_METHOD, 2)
        + Le(0, 16));
    NumAt(f, 0, LOCAL_FILE_HEADER_SIG, 4);
    AtLength(f, 0, LocalStart());
  }

  lemma AtLength(s: seq<Octet>, p: nat, part: seq<Octet>)
    requires At(s, p, part)
    ensures p + |part| <= |s|
  {
  }

  /** The fixed part of a local header. */
  function LocalFixed(e: Entry): (s: seq<Octet>)
    ensures |s| == 30
  {
    LocalStart() + (Le(|e.name|, 2) + Le(0, 2))
  }

  lemma LocalNums(e: Entry)
    requires EntryOk(e)
    ensures var f := LocalFixed(e);
            Num(f, 0, 4) == LOCAL_FILE_HEADER_SIG && Num(f, 26, 2) == |e.name| && Num(f, 28, 2) == 0
  {
    hide Le, FromLe, At, Pow256, LocalStart, EntryOk;
    Widths();
    NameFits(e);
    var f := LocalFixed(e);
    AtWhole(f);
    AtSplit(f, 0, LocalStart(), Le(|e.name|, 2) + Le(0, 2));
    AtSplit(f, 26, Le(|e.name|, 2), Le(0, 2));
    LocalStartNums(f);
    NumAt(f, 26, |e.name|, 2);
    NumAt(f, 28, 0, 2);
  }

  lemma NameFits(e: Entry)
    requires EntryOk(e)
    ensures |e.name| <= U16_MAX && e.crc <= U32_MAX && |e.payload| <= U64_MAX && e.uncompressedSize <= U64_MAX
  {
  }

  /** What the reader reports for a written entry. */
  function Reported(e: Entry, localOffset: nat): ReadEntry {
    ReadEntry(e.name, GP_FLAGS, DEFLATE_METHOD, e.crc, |e.payload|, e.uncompressedSize, localOffset, e.index)
  }

  /** The seek finds the payload of every entry, except that it fails for the one compressed size that is the
      sentinel itself, because the local header has no ZIP64 field. */
  lemma LocalSeek(s: seq<Octet>, e: Entry, localOffset: nat)
    requires EntryOk(e) && At(s, localOffset, LocalPart(e))
    ensures var r := EntryData(s, Reported(e, localOffset));
            if |e.payload| == U32_MAX then r == Failure(MissingZip64Size)
            else
              && r == Success((localOffset + 30 + |e.name|, |e.payload|))
              && At(s, localOffset + 30 + |e.name|, e.payload)
  {
    hide Le, FromLe, At, Pow256, LocalStart, EntryOk, DataDescriptor, Num;
    AtSplit(s, localOffset, LocalHeader(e) + e.payload, DataDescriptor(e));
    AtSplit(s, localOffset, LocalHeader(e), e.payload);
    AtSplit(s, localOffset, LocalFixed(e), e.name);
    LocalNums(e);
    SliceAt(s, localOffset, LocalFixed(e));
    NoExtra();
  }

  lemma NoExtra()
    ensures Zip64FieldOf([], false, true, false) == Success(None)
  {
  }

  // ---- The end records ---------------------------------------------------------------------------

  lemma EocdSignature(s: seq<Octet>, p: nat, count: nat, size: nat, offset: nat)
    requires At(s, p, Eocd(count, size, offset))
    ensures p + 22 <= |s| && s[p..p + 4] == Le(EOCD_SIG, 4)
  {
    hide Le, At;
    AtLength(s, p, Eocd(count, size, offset));
    var a := Le(EOCD_SIG, 4) + Le(0, 4) + Le(Sentinel(count, U16_MAX), 2);
    AtSplit(s, p, a, Le(Sentinel(count, U16_MAX), 2) + Le(Sentinel(size, U32_MAX), 4)
        + Le(Sentinel(offset, U32_MAX), 4) + Le(0, 2));
    AtSplit(s, p, Le(EOCD_SIG, 4) + Le(0, 4), Le(Sentinel(count, U16_MAX), 2));
    AtSplit(s, p, Le(EOCD_SIG, 4), Le(0, 4));
    AtIs(s, p, Le(EOCD_SIG, 4));
  }

  lemma AtIs(s: seq<Octet>, p: nat, part: seq<Octet>)
    requires At(s, p, part)
    ensures p + |part| <= |s| && s[p..p + |part|] == part
  {
  }

  lemma LocatorNums(f: seq<Octet>, at: nat)
    requires f == Locator(at) && at <= U64_MAX
    ensures |f| == 20 && Num(f, 0, 4) == ZIP64_EOCD_LOCATOR_SIG && Num(f, 8, 8) == at
  {
    hide Le, FromLe, At, Pow256;
    Widths();
    AtWhole(f);
    var a, b, c, d := Le(ZIP64_EOCD_LOCATOR_SIG, 4), Le(0, 4), Le(at, 8), Le(1, 4);
    AtSplit(f, 0, a + b + c, d);
    AtSplit(f, 0, a + b, c);
    AtSplit(f, 0, a, b);
    NumAt(f, 0, ZIP64_EOCD_LOCATOR_SIG, 4);
    NumAt(f, 8, at, 8);
  }

  function Zip64Prefix(extLen: nat): (s: seq<Octet>)
    ensures |s| == 12
  {
    Le(ZIP64_EOCD_SIG, 4) + Le(44 + extLen, 8)
  }

  function Zip64Middle(count: nat): (s: seq<Octet>)
    ensures |s| == 20
  {
    Le(ZIP_VERSION_ZIP64, 2) + Le(ZIP_VERSION_ZIP64, 2) + Le(0, 8) + Le(count, 8)
  }

  function Zip64Totals(count: nat, size: nat, offset: nat): (s: seq<Octet>)
    ensures |s| == 24
  {
    Le(count, 8) + Le(size, 8) + Le(offset, 8)
  }

  lemma PrefixNums(f: seq<Octet>, extLen: nat)
    requires f == Zip64Prefix(extLen) && 44 + extLen <= U64_MAX
    ensures |f| == 12 && Num(f, 0, 4) == ZIP64_EOCD_SIG && Num(f, 4, 8) == 44 + extLen
  {
    hide Le, FromLe, At, Pow256;
    Widths();
    AtWhole(f);
    AtSplit(f, 0, Le(ZIP64_EOCD_SIG, 4), Le(44 + extLen, 8));
    NumAt(f, 0, ZIP64_EOCD_SIG, 4);
    NumAt(f, 4, 44 + extLen, 8);
  }

  lemma TotalsNums(f: seq<Octet>, p: nat, count: nat, size: nat, offset: nat)
    requires At(f, p, Zip64Totals(count, size, offset)) && count <= U64_MAX && size <= U64_MAX && offset <= U64_MAX
    ensures p + 24 <= |f| && Num(f, p, 8) == count && Num(f, p + 8, 8) == size && Num(f, p + 16, 8) == offset
  {
    hide Le, FromLe, At, Pow256;
    Widths();
    AtLength(f, p, Zip64Totals(count, size, offset));
    AtSplit(f, p, Le(count, 8) + Le(size, 8), Le(offset, 8));
    AtSplit(f, p, Le(count, 8), Le(size, 8));
    NumAt(f, p, count, 8);
    NumAt(f, p + 8, size, 8);
    NumAt(f, p + 16, offset, 8);
  }

  function EndOf(count: nat, size: nat, offset: nat, ext: seq<Octet>): End {
    End(count, size, offset, if ext == [] then None else Some(ext))
  }

  lemma TailParts(count: nat, size: nat, offset: nat, ext: seq<Octet>)
    requires count <= U64_MAX && size <= U64_MAX && offset <= U64_MAX
    ensures var tail := Zip64Middle(count) + Zip64Totals(count, size, offset) + ext;
            && |tail| == 44 + |ext| && tail[44..] == ext
            && Num(tail, 20, 8) == count && Num(tail, 28, 8) == size && Num(tail, 36, 8) == offset
  {
    hide Num, At, Zip64Middle, Zip64Totals;
    var tail := Zip64Middle(count) + Zip64Totals(count, size, offset) + ext;
    AtWhole(tail);
    AtSplit(tail, 0, Zip64Middle(count) + Zip64Totals(count, size, offset), ext);
    AtSplit(tail, 0, Zip64Middle(count), Zip64Totals(count, size, offset));
    TotalsNums(tail, 20, count, size, offset);
  }

  lemma Zip64EndReads(s: seq<Octet>, at: nat, count: nat, size: nat, offset: nat, ext: seq<Octet>)
    requires count <= U64_MAX && size <= U64_MAX && offset <= U64_MAX && at <= U64_MAX && 44 + |ext| <= U64_MAX
    requires At(s, at, Zip64Eocd(count, size, offset, ext)) && At(s, at + 56 + |ext|, Locator(at))
    ensures ReadZip64End(s, at + 56 + |ext| + 20) == Success(Some(EndOf(count, size, offset, ext)))
  {
    hide Num, At, Zip64Middle, Zip64Totals, Zip64Prefix, Locator;
    var a, b, c := Zip64Prefix(|ext|), Zip64Middle(count), Zip64Totals(count, size, offset);
    Zip64Parts(count, size, offset, ext);
    AtSplit(s, at, a, b + c + ext);
    SliceAt(s, at, a);
    SliceAt(s, at + 12, b + c + ext);
    SliceAt(s, at + 56 + |ext|, Locator(at));
    LocatorNums(Locator(at), at);
    PrefixNums(a, |ext|);
    TailParts(count, size, offset, ext);
  }

  lemma Zip64Parts(count: nat, size: nat, offset: nat, ext: seq<Octet>)
    ensures Zip64Eocd(count, size, offset, ext)
            == Zip64Prefix(|ext|) + (Zip64Middle(count) + Zip64Totals(count, size, offset) + ext)
  {
    hide Le;
  }

  lemma LastIsEocd(s: seq<Octet>)
    requires |s| >= 22 && s[|s| - 22..|s| - 18] == Le(EOCD_SIG, 4)
    ensures LastEocd(s, |s| - 22) == Some(|s| - 22)
  {
    hide Le;
  }

  /** The end records of a written archive read back, whatever the archive holds. */
  lemma EndReads(s: seq<Octet>, at: nat, count: nat, size: nat, offset: nat, ext: seq<Octet>)
    requires count <= U64_MAX && size <= U64_MAX && offset <= U64_MAX && at <= U64_MAX && 44 + |ext| <= U64_MAX
    requires At(s, at, Zip64Eocd(count, size, offset, ext)) && At(s, at + 56 + |ext|, Locator(at))
    requires At(s, at + 76 + |ext|, Eocd(count, size, offset)) && |s| == at + 98 + |ext|
    ensures ReadEnd(s) == Success(EndOf(count, size, offset, ext))
  {
    hide Num, At, Zip64Eocd, Locator, Eocd, Le, ReadZip64End, LastEocd;
    EocdSignature(s, at + 76 + |ext|, count, size, offset);
    Zip64EndReads(s, at, count, size, offset, ext);
    var from := if |s| > SEARCH_LEN then |s| - SEARCH_LEN else 0;
    var tail := s[from..];
    assert tail[|tail| - 22..|tail| - 18] == s[|s| - 22..|s| - 18];
    LastIsEocd(tail);
  }

  // ---- The shared area ---------------------------------------------------------------------------

  function AreaHead(): (s: seq<Octet>)
    ensures |s| == 8
  {
    CZDI_EOCD64_MAGIC + ([1, 0] + Le(0, 2))
  }

  lemma AreaHeadIs(s: seq<Octet>)
    requires At(s, 0, AreaHead())
    ensures |s| >= 8 && s[..4] == CZDI_EOCD64_MAGIC && s[4] == 1
  {
    hide Le;
    assert s[..8] == AreaHead();
    assert s[..4] == AreaHead()[..4] && s[4] == AreaHead()[4];
  }

  lemma AreaReads(area: seq<Octet>)
    requires |area| <= U32_MAX
    ensures var ext := AreaRecord(area);
            AreaOf(if ext == [] then None else Some(ext)) == Success(if area == [] then None else Some(area))
  {
    hide Le, FromLe, Pow256, At, Num, AreaHead;
    if area != [] {
      var ext := AreaRecord(area);
      AreaRecordIs(area);
      Widths();
      AtWhole(ext);
      AtSplit(ext, 0, AreaHead() + Le(|area|, 4), area);
      AtSplit(ext, 0, AreaHead(), Le(|area|, 4));
      AreaHeadIs(ext);
      NumAt(ext, 8, |area|, 4);
      AtIs(ext, 12, area);
    }
  }

  lemma AreaRecordIs(area: seq<Octet>)
    ensures area != [] ==> AreaRecord(area) == AreaHead() + Le(|area|, 4) + area
  {
  }

  lemma {:induction false} AreaHolds(entries: seq<Entry>, i: nat)
    requires EntriesOk(entries) && i < |entries| && IsLarge(entries[i])
    ensures At(Area(entries), |Area(entries[..i])|, Blob(entries[i].index.value))
    decreases |entries|
  {
    hide Blob, Czdi.Typed, Czdi.Encodable;
    var n := |entries| - 1;
    if i < n {
      AreaHolds(entries[..n], i);
      assert entries[..n][..i] == entries[..i];
      var blob := Blob(entries[i].index.value);
      AtLonger(Area(entries[..n]), Area(entries), |Area(entries[..i])|, blob);
    } else {
      assert Area(entries)[|Area(entries[..i])|..] == Blob(entries[i].index.value);
    }
  }

  lemma AtLonger(a: seq<Octet>, b: seq<Octet>, p: nat, part: seq<Octet>)
    requires At(a, p, part) && a <= b
    ensures At(b, p, part)
  {
    assert b[p..p + |part|] == a[p..p + |part|];
  }

  // ---- The extra fields --------------------------------------------------------------------------

  lemma Zip64Header(f: seq<Octet>, p: nat)
    requires At(f, p, Le(ZIP64_EXTRA_FIELD_TAG, 2) + Le(24, 2))
    ensures p + 4 <= |f| && Num(f, p, 2) == ZIP64_EXTRA_FIELD_TAG && Num(f, p + 2, 2) == 24
  {
    hide Le, FromLe, Pow256, At;
    Widths();
    AtLength(f, p, Le(ZIP64_EXTRA_FIELD_TAG, 2) + Le(24, 2));
    AtSplit(f, p, Le(ZIP64_EXTRA_FIELD_TAG, 2), Le(24, 2));
    NumAt(f, p, ZIP64_EXTRA_FIELD_TAG, 2);
    NumAt(f, p + 2, 24, 2);
  }

  /** The three numbers of the ZIP64 field. */
  function Zip64Data(e: Entry, localOffset: nat): (s: seq<Octet>)
    ensures |s| == 24
  {
    Le(e.uncompressedSize, 8) + Le(|e.payload|, 8) + Le(localOffset, 8)
  }

  lemma Zip64DataNums(e: Entry, localOffset: nat)
    requires EntryOk(e) && localOffset <= U64_MAX
    ensures Zip64Numbers(Zip64Data(e, localOffset), true, true, true)
            == Success(Zip64Field(Some(e.uncompressedSize), Some(|e.payload|), Some(localOffset)))
  {
    hide Le, FromLe, Pow256, At, Num, EntryOk;
    NameFits(e);
    Widths();
    var f := Zip64Data(e, localOffset);
    AtWhole(f);
    AtSplit(f, 0, Le(e.uncompressedSize, 8) + Le(|e.payload|, 8), Le(localOffset, 8));
    AtSplit(f, 0, Le(e.uncompressedSize, 8), Le(|e.payload|, 8));
    NumAt(f, 0, e.uncompressedSize, 8);
    NumAt(f, 8, |e.payload|, 8);
    NumAt(f, 16, localOffset, 8);
  }

  lemma CzdiHeader(f: seq<Octet>, p: nat, len: nat)
    requires At(f, p, Le(CZDI_EXTRA_FIELD_TAG, 2) + Le(len, 2)) && len <= U16_MAX
    ensures p + 4 <= |f| && Num(f, p, 2) == CZDI_EXTRA_FIELD_TAG && Num(f, p + 2, 2) == len
  {
    hide Le, FromLe, Pow256, At;
    Widths();
    AtLength(f, p, Le(CZDI_EXTRA_FIELD_TAG, 2) + Le(len, 2));
    AtSplit(f, p, Le(CZDI_EXTRA_FIELD_TAG, 2), Le(len, 2));
    NumAt(f, p, CZDI_EXTRA_FIELD_TAG, 2);
    NumAt(f, p + 2, len, 2);
  }

  /** Both extra fields are found by their tags. */
  lemma ExtraFields(e: Entry, localOffset: nat, at: nat)
    requires EntryOk(e) && |CzdiPayload(e, at)| <= U16_MAX
    ensures var extra := Zip64Extra(e.uncompressedSize, |e.payload|, localOffset) + CzdiExtra(e, at);
            && FieldFrom(extra, 0, ZIP64_EXTRA_FIELD_TAG) == Success(Some(Zip64Data(e, localOffset)))
            && FieldFrom(extra, 0, CZDI_EXTRA_FIELD_TAG) == Success(Some(CzdiPayload(e, at)))
  {
    hide Le, At, Num, EntryOk, CzdiPayload;
    var extra := Zip64Extra(e.uncompressedSize, |e.payload|, localOffset) + CzdiExtra(e, at);
    var payload := CzdiPayload(e, at);
    AtWhole(extra);
    AtSplit(extra, 0, Zip64Extra(e.uncompressedSize, |e.payload|, localOffset), CzdiExtra(e, at));
    AtSplit(extra, 0, Le(ZIP64_EXTRA_FIELD_TAG, 2) + Le(24, 2), Zip64Data(e, localOffset));
    AtSplit(extra, 28, Le(CZDI_EXTRA_FIELD_TAG, 2) + Le(|payload|, 2), payload);
    Zip64Header(extra, 0);
    CzdiHeader(extra, 28, |payload|);
    AtIs(extra, 4, Zip64Data(e, localOffset));
    AtIs(extra, 32, payload);
    var first := FieldFrom(extra, 28, CZDI_EXTRA_FIELD_TAG);
    assert first == Success(Some(payload));
  }

  lemma StoragePart(f: seq<Octet>, storage: Octet)
    requires At(f, 0, CzdiHead(storage))
    ensures |f| >= 4 && f[0] == 1 && f[1] == storage
  {
    hide Le;
    assert f[..4] == CzdiHead(storage);
    assert f[0] == CzdiHead(storage)[0] && f[1] == CzdiHead(storage)[1];
  }

  lemma InlineReads(blob: seq<Octet>)
    requires |blob| <= MAX_INLINE_BLOB
    ensures StorageOf(CzdiHead(0) + (Le(|blob|, 4) + Le(Czdi.TableCrc(blob), 4)) + blob) == Success(Inline(blob))
  {
    hide Le, FromLe, Pow256, At, Num, CzdiHead, Czdi.TableCrc;
    Widths();
    var f := CzdiHead(0) + (Le(|blob|, 4) + Le(Czdi.TableCrc(blob), 4)) + blob;
    AtWhole(f);
    AtSplit(f, 0, CzdiHead(0) + (Le(|blob|, 4) + Le(Czdi.TableCrc(blob), 4)), blob);
    AtSplit(f, 0, CzdiHead(0), Le(|blob|, 4) + Le(Czdi.TableCrc(blob), 4));
    AtSplit(f, 4, Le(|blob|, 4), Le(Czdi.TableCrc(blob), 4));
    StoragePart(f, 0);
    NumAt(f, 4, |blob|, 4);
    NumAt(f, 8, Czdi.TableCrc(blob), 4);
    AtIs(f, 12, blob);
  }

  lemma ReferenceReads(at: nat, len: nat, crc: nat)
    requires at <= U32_MAX && len <= U32_MAX && crc <= U32_MAX
    ensures StorageOf(CzdiHead(1) + (Le(at, 4) + Le(len, 4) + Le(crc, 4))) == Success(InArea(at, len, crc))
  {
    hide Le, FromLe, Pow256, At, Num, CzdiHead;
    Widths();
    var f := CzdiHead(1) + (Le(at, 4) + Le(len, 4) + Le(crc, 4));
    AtWhole(f);
    AtSplit(f, 0, CzdiHead(1), Le(at, 4) + Le(len, 4) + Le(crc, 4));
    AtSplit(f, 4, Le(at, 4) + Le(len, 4), Le(crc, 4));
    AtSplit(f, 4, Le(at, 4), Le(len, 4));
    StoragePart(f, 1);
    NumAt(f, 4, at, 4);
    NumAt(f, 8, len, 4);
    NumAt(f, 12, crc, 4);
  }

  lemma NoneReads()
    ensures StorageOf(CzdiHead(2)) == Success(NoIndex)
  {
    hide Le, At, Num, CzdiHead;
    AtWhole(CzdiHead(2));
    StoragePart(CzdiHead(2), 2);
  }

  lemma BlobDecodes(x: Czdi.Index)
    requires Czdi.Typed(x) && Czdi.Encodable(x)
    ensures Czdi.Decoded(Blob(x)) == Czdi.Success(x)
  {
    hide Czdi.Typed, Czdi.Encodable, Czdi.Decoded, Czdi.HeaderBytes, Czdi.TableBytes;
    Czdi.CzdiRoundTrip(x, []);
    assert Blob(x) + [] == Blob(x);
  }

  /** Large blobs stand in the area where the entry says. */
  ghost predicate InShared(e: Entry, at: nat, area: Option<seq<Octet>>)
    requires EntryOk(e)
  {
    IsLarge(e) ==> area.Some? && |area.value| <= U32_MAX && At(area.value, at, Blob(e.index.value))
  }

  /** The index of an entry comes back, whichever way it is stored. */
  lemma IndexReads(e: Entry, at: nat, area: Option<seq<Octet>>)
    requires EntryOk(e) && InShared(e, at, area)
    ensures var storage := StorageOf(CzdiPayload(e, at));
            storage.Success? && IndexOfBlob(BlobOf(storage.value, area)) == e.index
  {
    hide Le, At, Num, CzdiHead, Blob, StorageOf, Czdi.Decoded, Czdi.TableCrc, Czdi.Encodable, Czdi.Typed;
    if e.index.None? {
      NoneReads();
    } else {
      var blob := Blob(e.index.value);
      BlobDecodes(e.index.value);
      if |blob| <= MAX_INLINE_BLOB {
        InlineReads(blob);
      } else {
        AtIs(area.value, at, blob);
        ReferenceReads(at, |blob|, Czdi.TableCrc(blob));
      }
    }
  }

  lemma PayloadFits(e: Entry, at: nat)
    requires EntryOk(e)
    ensures |CzdiPayload(e, at)| <= 16 + MAX_INLINE_BLOB && 28 + |CzdiExtra(e, at)| <= U16_MAX
  {
    hide EntryOk, Blob;
  }

  // ---- Any list of extra fields ------------------------------------------------------------------

  datatype Field = Field(tag: nat, payload: seq<Octet>)

  predicate FieldsOk(fields: seq<Field>) {
    forall i :: 0 <= i < |fields| ==> fields[i].tag <= U16_MAX && |fields[i].payload| <= U16_MAX
  }

  function FieldBytes(fields: seq<Field>): seq<Octet> {
    if fields == [] then []
    else Le(fields[0].tag, 2) + Le(|fields[0].payload|, 2) + fields[0].payload + FieldBytes(fields[1..])
  }

  /** The payload of the first field with the tag. */
  function FirstWith(fields: seq<Field>, tag: nat): Option<seq<Octet>> {
    if fields == [] then None else if fields[0].tag == tag then Some(fields[0].payload) else FirstWith(fields[1..], tag)
  }

  lemma FieldHead(extra: seq<Octet>, p: nat, f: Field, rest: seq<Octet>)
    requires f.tag <= U16_MAX && |f.payload| <= U16_MAX
    requires At(extra, p, Le(f.tag, 2) + Le(|f.payload|, 2) + f.payload + rest)
    ensures var q := p + 4 + |f.payload|;
            && q <= |extra| && Num(extra, p, 2) == f.tag && Num(extra, p + 2, 2) == |f.payload|
            && extra[p + 4..q] == f.payload && At(extra, q, rest)
  {
    hide Le, FromLe, Pow256, At, Num;
    Widths();
    AtSplit(extra, p, Le(f.tag, 2) + Le(|f.payload|, 2) + f.payload, rest);
    AtSplit(extra, p, Le(f.tag, 2) + Le(|f.payload|, 2), f.payload);
    AtSplit(extra, p, Le(f.tag, 2), Le(|f.payload|, 2));
    NumAt(extra, p, f.tag, 2);
    NumAt(extra, p + 2, |f.payload|, 2);
    AtIs(extra, p + 4, f.payload);
  }

  /** In any list of fields the search finds the first one with the tag. */
  lemma {:induction false} FieldFound(extra: seq<Octet>, p: nat, fields: seq<Field>, tag: nat)
    requires FieldsOk(fields) && At(extra, p, FieldBytes(fields)) && p + |FieldBytes(fields)| == |extra|
    ensures FieldFrom(extra, p, tag) == Success(FirstWith(fields, tag))
    decreases |fields|
  {
    hide Le, At, Num;
    if fields != [] {
      FieldHead(extra, p, fields[0], FieldBytes(fields[1..]));
      FieldFound(extra, p + 4 + |fields[0].payload|, fields[1..], tag);
    }
  }

  function NumberBytes(needed: bool, v: nat): seq<Octet> {
    if needed then Le(v, 8) else []
  }

  function Asked(needed: bool, v: nat): Option<nat> {
    if needed then Some(v) else None
  }

  function Width(needed: bool): nat {
    if needed then 8 else 0
  }

  lemma NumberReads(d: seq<Octet>, p: nat, needed: bool, v: nat)
    requires v <= U64_MAX && At(d, p, NumberBytes(needed, v))
    ensures OptionalNum(d, p, needed) == Success((Asked(needed, v), p + |NumberBytes(needed, v)|))
  {
    hide Le, FromLe, Pow256, Num;
    Widths();
    if needed {
      NumAt(d, p, v, 8);
    }
  }

  /** The numbers that the record asks for, one behind the other. */
  lemma NumbersRead(needU: bool, needC: bool, needO: bool, u: nat, c: nat, o: nat, rest: seq<Octet>)
    requires u <= U64_MAX && c <= U64_MAX && o <= U64_MAX
    ensures Zip64Numbers(NumberBytes(needU, u) + NumberBytes(needC, c) + NumberBytes(needO, o) + rest, needU, needC,
          needO)
            == Success(Zip64Field(Asked(needU, u), Asked(needC, c), Asked(needO, o)))
  {
    hide NumberBytes, OptionalNum, At, Asked;
    var x, y, z := NumberBytes(needU, u), NumberBytes(needC, c), NumberBytes(needO, o);
    var d := x + y + z + rest;
    AtWhole(d);
    AtSplit(d, 0, x + y + z, rest);
    AtSplit(d, 0, x + y, z);
    AtSplit(d, 0, x, y);
    NumberReads(d, 0, needU, u);
    NumberReads(d, |x|, needC, c);
    NumberReads(d, |x| + |y|, needO, o);
  }

  lemma NumbersMissing(d: seq<Octet>, needU: bool, needC: bool, needO: bool)
    requires |d| < Width(needU) + Width(needC) + Width(needO)
    ensures Zip64Numbers(d, needU, needC, needO) == Failure(ExtraTruncated)
  {
    hide Num;
  }

  // ---- Directory records -------------------------------------------------------------------------

  lemma CentralStartNums(f: seq<Octet>)
    requires At(f, 0, CentralStart())
    ensures |f| >= 16 && Num(f, 0, 4) == CENTRAL_DIR_HEADER_SIG && Num(f, 8, 2) == GP_FLAGS
    ensures Num(f, 10, 2) == DEFLATE_METHOD
  {
    hide Le, FromLe, At, Pow256;
    Widths();
    AtLength(f, 0, CentralStart());
    var a, b, c := Le(CENTRAL_DIR_HEADER_SIG, 4), Le(ZIP_VERSION_ZIP64, 2), Le(GP_FLAGS, 2) + Le(DEFLATE_METHOD, 2)
        + Le(0, 4);
    AtSplit(f, 0, a + b + b, c);
    AtSplit(f, 0, a + b, b);
    AtSplit(f, 0, a, b);
    AtSplit(f, 8, Le(GP_FLAGS, 2) + Le(DEFLATE_METHOD, 2), Le(0, 4));
    AtSplit(f, 8, Le(GP_FLAGS, 2), Le(DEFLATE_METHOD, 2));
    NumAt(f, 0, CENTRAL_DIR_HEADER_SIG, 4);
    NumAt(f, 8, GP_FLAGS, 2);
    NumAt(f, 10, DEFLATE_METHOD, 2);
  }

  lemma CentralSizeNums(f: seq<Octet>, e: Entry)
    requires At(f, 16, CentralSizes(e.crc)) && e.crc <= U32_MAX
    ensures |f| >= 28 && Num(f, 16, 4) == e.crc && Num(f, 20, 4) == U32_MAX && Num(f, 24, 4) == U32_MAX
  {
    hide Le, FromLe, At, Pow256;
    Widths();
    AtLength(f, 16, CentralSizes(e.crc));
    var a, b := Le(e.crc, 4), Le(0xFFFF_FFFF, 4);
    AtSplit(f, 16, a + b, b);
    AtSplit(f, 16, a, b);
    NumAt(f, 16, e.crc, 4);
    NumAt(f, 20, U32_MAX, 4);
    NumAt(f, 24, U32_MAX, 4);
  }

  lemma CentralLengthNums(f: seq<Octet>, e: Entry, extraLen: nat)
    requires At(f, 28, CentralLengths(|e.name|, extraLen)) && |e.name| <= U16_MAX && extraLen <= U16_MAX
    ensures |f| >= 34 && Num(f, 28, 2) == |e.name| && Num(f, 30, 2) == extraLen && Num(f, 32, 2) == 0
  {
    hide Le, FromLe, At, Pow256;
    Widths();
    AtLength(f, 28, CentralLengths(|e.name|, extraLen));
    var a, b, c := Le(|e.name|, 2), Le(extraLen, 2), Le(0, 2);
    AtSplit(f, 28, a + b, c);
    AtSplit(f, 28, a, b);
    NumAt(f, 28, |e.name|, 2);
    NumAt(f, 30, extraLen, 2);
    NumAt(f, 32, 0, 2);
  }

  lemma CentralEndNums(f: seq<Octet>)
    requires At(f, 34, CentralEnd())
    ensures |f| >= 46 && Num(f, 42, 4) == U32_MAX
  {
    hide Le, FromLe, At, Pow256;
    Widths();
    AtLength(f, 34, CentralEnd());
    AtSplit(f, 34, Le(0, 8), Le(0xFFFF_FFFF, 4));
    NumAt(f, 42, U32_MAX, 4);
  }

  lemma CentralFixedParts(e: Entry, extraLen: nat)
    ensures var f := CentralFixed(e.crc, |e.name|, extraLen);
            At(f, 0, CentralStart()) && At(f, 16, CentralSizes(e.crc))
                && At(f, 28, CentralLengths(|e.name|, extraLen)) && At(f, 34, CentralEnd())
  {
    hide At, CentralStart, CentralSizes, CentralLengths, CentralEnd;
    var f := CentralFixed(e.crc, |e.name|, extraLen);
    AtWhole(f);
    AtSplit(f, 0, CentralStart() + CentralSizes(e.crc) + CentralLengths(|e.name|, extraLen), CentralEnd());
    AtSplit(f, 0, CentralStart() + CentralSizes(e.crc), CentralLengths(|e.name|, extraLen));
    AtSplit(f, 0, CentralStart(), CentralSizes(e.crc));
  }

  lemma VariableReads(e: Entry, localOffset: nat, at: nat, area: Option<seq<Octet>>)
    requires EntryOk(e) && InShared(e, at, area) && localOffset <= U64_MAX
    ensures ReadVariable(CentralFixed(e.crc, |e.name|, 28 + |CzdiExtra(e, at)|), e.name,
          Zip64Extra(e.uncompressedSize, |e.payload|, localOffset) + CzdiExtra(e, at), area)
            == Success(Reported(e, localOffset))
  {
    hide At, Num, CentralStart, CentralSizes, CentralLengths, CentralEnd, CentralFixed, Zip64Extra, CzdiExtra;
    hide CzdiPayload;
    hide FieldFrom, StorageOf, BlobOf, IndexOfBlob, Zip64Data, Zip64Numbers, InShared, IsLarge, EntryOk;
    NameFits(e);
    PayloadFits(e, at);
    CentralFixedParts(e, 28 + |CzdiExtra(e, at)|);
    var f := CentralFixed(e.crc, |e.name|, 28 + |CzdiExtra(e, at)|);
    CentralStartNums(f);
    CentralSizeNums(f, e);
    CentralEndNums(f);
    ExtraFields(e, localOffset, at);
    Zip64DataNums(e, localOffset);
    IndexReads(e, at, area);
  }

  lemma FixedNums(e: Entry, extraLen: nat)
    requires EntryOk(e) && extraLen <= U16_MAX
    ensures var f := CentralFixed(e.crc, |e.name|, extraLen);
            && Num(f, 0, 4) == CENTRAL_DIR_HEADER_SIG && Num(f, 10, 2) == DEFLATE_METHOD && Num(f, 8, 2) == GP_FLAGS
            && Num(f, 28, 2) == |e.name| && Num(f, 30, 2) == extraLen && Num(f, 32, 2) == 0
  {
    hide At, Num, CentralStart, CentralSizes, CentralLengths, CentralEnd, CentralFixed, EntryOk;
    NameFits(e);
    CentralFixedParts(e, extraLen);
    var f := CentralFixed(e.crc, |e.name|, extraLen);
    CentralStartNums(f);
    CentralLengthNums(f, e, extraLen);
  }

  /** A record put together from its parts. */
  lemma RecordFromParts(s: seq<Octet>, p: nat, f: seq<Octet>, name: seq<Octet>, extra: seq<Octet>,
      area: Option<seq<Octet>>, e: ReadEntry)
    requires |f| == 46 && Slice(s, p, 46) == Success(f)
    requires Slice(s, p + 46, |name|) == Success(name) && Slice(s, p + 46 + |name|, |extra|) == Success(extra)
    requires Num(f, 0, 4) == CENTRAL_DIR_HEADER_SIG && Num(f, 10, 2) == DEFLATE_METHOD && Num(f, 8, 2) == GP_FLAGS
    requires Num(f, 28, 2) == |name| && Num(f, 30, 2) == |extra| && Num(f, 32, 2) == 0
    requires ReadVariable(f, name, extra, area) == Success(e)
    ensures ReadRecord(s, p, area) == Success((e, p + 46 + |name| + |extra|))
  {
    hide Num, Slice, ReadVariable;
  }

  lemma RecordReads(s: seq<Octet>, p: nat, e: Entry, localOffset: nat, at: nat, area: Option<seq<Octet>>)
    requires EntryOk(e) && InShared(e, at, area) && localOffset <= U64_MAX
    requires At(s, p, CentralRecord(e, localOffset, at))
    ensures ReadRecord(s, p, area) == Success((Reported(e, localOffset), p + |CentralRecord(e, localOffset, at)|))
  {
    hide At, Num, Slice, CentralFixed, Zip64Extra, CzdiExtra, InShared, EntryOk, ReadVariable, ReadRecord, Reported;
    PayloadFits(e, at);
    var f, extra := CentralFixed(e.crc, |e.name|, 28 + |CzdiExtra(e, at)|),
        Zip64Extra(e.uncompressedSize, |e.payload|, localOffset) + CzdiExtra(e, at);
    AtSplit(s, p, f + e.name, extra);
    AtSplit(s, p, f, e.name);
    SliceAt(s, p, f);
    SliceAt(s, p + 46, e.name);
    SliceAt(s, p + 46 + |e.name|, extra);
    FixedNums(e, 28 + |CzdiExtra(e, at)|);
    VariableReads(e, localOffset, at, area);
    RecordFromParts(s, p, f, e.name, extra, area, Reported(e, localOffset));
  }

  // ---- The whole archive -------------------------------------------------------------------------

  /** The first `k` entries as the reader reports them. */
  function Reports(entries: seq<Entry>, k: nat): (r: seq<ReadEntry>)
    requires k <= |entries|
    ensures |r| == k
  {
    seq(k, i requires 0 <= i < k => Reported(entries[i], LocalOffset(entries, i)))
  }

  function RecordOf(entries: seq<Entry>, i: nat): seq<Octet>
    requires EntriesOk(entries) && i < |entries|
  {
    CentralRecord(entries[i], LocalOffset(entries, i), |Area(entries[..i])|)
  }

  lemma NextRecord(entries: seq<Entry>, i: nat)
    requires EntriesOk(entries) && i < |entries|
    ensures CentralDirectory(entries[..i + 1]) == CentralDirectory(entries[..i]) + RecordOf(entries, i)
  {
    hide EntryOk, CentralRecord, Area;
    assert entries[..i + 1][..i] == entries[..i];
  }

  lemma {:induction false} DirectoryPrefix(entries: seq<Entry>, i: nat)
    requires EntriesOk(entries) && i <= |entries|
    ensures CentralDirectory(entries[..i]) <= CentralDirectory(entries)
    decreases |entries| - i
  {
    hide EntryOk, CentralDirectory, RecordOf;
    if i < |entries| {
      DirectoryPrefix(entries, i + 1);
      NextRecord(entries, i);
    } else {
      assert entries[..i] == entries;
    }
  }

  lemma RecordPlace(s: seq<Octet>, p: nat, entries: seq<Entry>, i: nat)
    requires EntriesOk(entries) && i < |entries| && At(s, p, CentralDirectory(entries))
    ensures At(s, p + |CentralDirectory(entries[..i])|, RecordOf(entries, i))
    ensures |CentralDirectory(entries[..i + 1])| == |CentralDirectory(entries[..i])| + |RecordOf(entries, i)|
  {
    hide EntryOk, CentralDirectory, RecordOf, At;
    NextRecord(entries, i);
    DirectoryPrefix(entries, i + 1);
    var a, b := CentralDirectory(entries[..i]), RecordOf(entries, i);
    AtShorter(s, p, CentralDirectory(entries), a + b);
    AtSplit(s, p, a, b);
  }

  lemma AtShorter(s: seq<Octet>, p: nat, part: seq<Octet>, start: seq<Octet>)
    requires At(s, p, part) && start <= part
    ensures At(s, p, start)
  {
    assert s[p..p + |start|] == s[p..p + |part|][..|start|];
  }

  lemma SharedOk(entries: seq<Entry>, i: nat)
    requires EntriesOk(entries) && i < |entries| && |Area(entries)| <= U32_MAX
    ensures InShared(entries[i], |Area(entries[..i])|, if Area(entries) == [] then None else Some(Area(entries)))
  {
    hide Area, At, Blob, Czdi.Typed, Czdi.Encodable;
    if IsLarge(entries[i]) {
      AreaHolds(entries, i);
      AtLength(Area(entries), |Area(entries[..i])|, Blob(entries[i].index.value));
    }
  }

  lemma {:induction false} LocalPrefix(entries: seq<Entry>, i: nat)
    requires i <= |entries|
    ensures LocalParts(entries[..i]) <= LocalParts(entries)
    ensures i < |entries| ==> LocalParts(entries[..i]) + LocalPart(entries[i]) <= LocalParts(entries)
    decreases |entries| - i
  {
    hide LocalPart;
    if i < |entries| {
      LocalPrefix(entries, i + 1);
      assert entries[..i + 1][..i] == entries[..i];
    } else {
      assert entries[..i] == entries;
    }
  }

  function SharedArea(entries: seq<Entry>): Option<seq<Octet>>
    requires EntriesOk(entries)
  {
    if Area(entries) == [] then None else Some(Area(entries))
  }

  lemma OneRecord(s: seq<Octet>, p: nat, entries: seq<Entry>, i: nat)
    requires EntriesOk(entries) && i < |entries| && |Area(entries)| <= U32_MAX && |LocalParts(entries)| <= U64_MAX
    requires At(s, p, CentralDirectory(entries))
    ensures ReadRecord(s, p + |CentralDirectory(entries[..i])|, SharedArea(entries))
            == Success((Reported(entries[i], LocalOffset(entries, i)), p + |CentralDirectory(entries[..i + 1])|))
  {
    hide EntryOk, CentralDirectory, At, Area, ReadRecord, InShared, CentralRecord, Reported, LocalParts;
    RecordPlace(s, p, entries, i);
    SharedOk(entries, i);
    LocalPrefix(entries, i);
    RecordReads(s, p + |CentralDirectory(entries[..i])|, entries[i], LocalOffset(entries, i), |Area(entries[..i])|,
                SharedArea(entries));
  }

  lemma {:induction false} DirectoryReads(s: seq<Octet>, p: nat, entries: seq<Entry>, i: nat)
    requires EntriesOk(entries) && i <= |entries| && |Area(entries)| <= U32_MAX && |LocalParts(entries)| <= U64_MAX
    requires At(s, p, CentralDirectory(entries))
    ensures ReadRecords(s, p + |CentralDirectory(entries[..i])|, |entries|, SharedArea(entries), Reports(entries, i))
            == Success(Reports(entries, |entries|))
    decreases |entries| - i
  {
    hide EntryOk, CentralDirectory, At, Area, ReadRecord, Reported, LocalParts, SharedArea, LocalOffset;
    if i < |entries| {
      OneRecord(s, p, entries, i);
      assert Reports(entries, i + 1) == Reports(entries, i) + [Reported(entries[i], LocalOffset(entries, i))];
      DirectoryReads(s, p, entries, i + 1);
    }
  }

  /** Where the parts of a written archive stand. */
  lemma ArchiveParts(entries: seq<Entry>)
    requires EntriesOk(entries)
    ensures var s, locals, directory, ext := ArchiveBytes(entries), LocalParts(entries), CentralDirectory(entries),
          AreaRecord(Area(entries));
            var at := |locals| + |directory|;
            && At(s, 0, locals) && At(s, |locals|, directory) && |s| == at + 98 + |ext|
            && At(s, at, Zip64Eocd(|entries|, |directory|, |locals|, ext)) && At(s, at + 56 + |ext|, Locator(at))
            && At(s, at + 76 + |ext|, Eocd(|entries|, |directory|, |locals|))
  {
    hide EntryOk, LocalParts, CentralDirectory, AreaRecord, Area, Zip64Eocd, Locator, Eocd, At;
    var s, a, b, ext := ArchiveBytes(entries), LocalParts(entries), CentralDirectory(entries),
        AreaRecord(Area(entries));
    var c, d, e := Zip64Eocd(|entries|, |b|, |a|, ext), Locator(|a| + |b|), Eocd(|entries|, |b|, |a|);
    AtWhole(s);
    AtSplit(s, 0, a + b + c + d, e);
    AtSplit(s, 0, a + b + c, d);
    AtSplit(s, 0, a + b, c);
    AtSplit(s, 0, a, b);
  }

  /** An archive whose sizes fit their fields. */
  predicate Fits(entries: seq<Entry>) {
    && EntriesOk(entries) && |Area(entries)| <= U32_MAX && |ArchiveBytes(entries)| <= U64_MAX && |entries| <= U64_MAX
  }

  /** The end of a written archive, as the reader reports it. */
  function WrittenEnd(entries: seq<Entry>): End
    requires EntriesOk(entries)
  {
    EndOf(|entries|, |CentralDirectory(entries)|, |LocalParts(entries)|, AreaRecord(Area(entries)))
  }

  lemma WrittenEndReads(entries: seq<Entry>)
    requires Fits(entries)
    ensures ReadEnd(ArchiveBytes(entries)) == Success(WrittenEnd(entries))
  {
    hide EntryOk, LocalParts, CentralDirectory, AreaRecord, Area, Zip64Eocd, Locator, Eocd, At, ArchiveBytes;
    hide ReadEnd, EndOf;
    var s, locals, directory, ext := ArchiveBytes(entries), LocalParts(entries), CentralDirectory(entries),
        AreaRecord(Area(entries));
    ArchiveParts(entries);
    EndReads(s, |locals| + |directory|, |entries|, |directory|, |locals|, ext);
  }

  /** Container round trip: reading a written archive returns every entry's name, flags, checksum, sizes, offset and
      chunk index, whether the index is stored inline or in the shared area. */
  lemma ZipRoundTrips(entries: seq<Entry>)
    requires Fits(entries)
    ensures ReadArchive(ArchiveBytes(entries)) == Success(Reports(entries, |entries|))
  {
    hide EntryOk, LocalParts, CentralDirectory, AreaRecord, Area, Zip64Eocd, Locator, Eocd, At, ArchiveBytes;
    hide ReadEnd, AreaOf;
    hide Reported, ReadRecord;
    var s, locals, directory, ext := ArchiveBytes(entries), LocalParts(entries), CentralDirectory(entries),
        AreaRecord(Area(entries));
    ArchiveParts(entries);
    WrittenEndReads(entries);
    AreaReads(Area(entries));
    NothingBefore(entries);
    DirectoryReads(s, |locals|, entries, 0);
  }

  lemma NothingBefore(entries: seq<Entry>)
    requires EntriesOk(entries)
    ensures EntriesOk(entries[..0]) && |CentralDirectory(entries[..0])| == 0 && Reports(entries, 0) == []
  {
  }

  /** The seek lands on the payload of every entry, exactly unless its length is the 32-bit sentinel. */
  lemma ZipSeeks(entries: seq<Entry>, i: nat)
    requires EntriesOk(entries) && i < |entries|
    ensures var e, s := entries[i], ArchiveBytes(entries);
            var at := LocalOffset(entries, i) + 30 + |e.name|;
            if |e.payload| == U32_MAX then EntryData(s, Reports(entries, |entries|)[i]) == Failure(MissingZip64Size)
            else EntryData(s, Reports(entries, |entries|)[i]) == Success((at, |e.payload|)) && At(s, at, e.payload)
  {
    hide EntryOk, LocalPart, CentralDirectory, AreaRecord, Area, Zip64Eocd, Locator, Eocd, At, ArchiveBytes, EntryData;
    var s := ArchiveBytes(entries);
    ArchiveParts(entries);
    LocalPrefix(entries, i);
    AtShorter(s, 0, LocalParts(entries), LocalParts(entries[..i]) + LocalPart(entries[i]));
    AtSplit(s, 0, LocalParts(entries[..i]), LocalPart(entries[i]));
    LocalSeek(s, entries[i], LocalOffset(entries, i));
  }
}
