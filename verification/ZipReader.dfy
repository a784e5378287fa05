/** Reading a ZIP64 container: every reader agrees with what the bytes say, so it finds what the writer put there. */
module ZipReader {
  import opened Options
  import opened Octets
  import opened ZipFormat
  import opened ZipParse
  import opened ZipRoundTrip
  import Standard = ZipStandard
  import Czdi

  // ---- End records -------------------------------------------------------------------------------

  predicate EocdAt(s: seq<Octet>, k: nat) {
    k + 22 <= |s| && s[k..k + 4] == Le(EOCD_SIG, 4)
  }

  /** The search goes backwards and stops at the last signature that leaves room for a whole record. */
  method FindEocd(s: seq<Octet>) returns (r: Option<nat>)
    ensures r.Some? ==> EocdAt(s, r.value) && forall k :: r.value < k <= |s| ==> !EocdAt(s, k)
    ensures r.None? ==> forall k :: 0 <= k <= |s| ==> !EocdAt(s, k)
  {
    hide Le;
    if |s| < 22 {
      return None;
    }
    var k := |s| - 22;
    while true
      invariant 0 <= k <= |s| - 22 && forall j :: k < j <= |s| ==> !EocdAt(s, j)
      decreases k
    {
      if s[k..k + 4] == Le(EOCD_SIG, 4) {
        return Some(k);
      }
      if k == 0 {
        return None;
      }
      k := k - 1;
    }
  }

  lemma {:induction false} LastEocdIs(s: seq<Octet>, k: nat)
    requires k + 22 <= |s|
    ensures match LastEocd(s, k) {
              case Some(j) => EocdAt(s, j) && j <= k && forall i :: j < i <= k ==> !EocdAt(s, i)
              case None => forall i :: 0 <= i <= k ==> !EocdAt(s, i)
            }
  {
    hide EocdAt;
    SignatureIsEocd(s, k);
    if k > 0 && !EocdAt(s, k) {
      LastEocdIs(s, k - 1);
    }
  }

  lemma SignatureIsEocd(s: seq<Octet>, k: nat)
    requires k + 22 <= |s|
    ensures s[k..k + 4] == Le(EOCD_SIG, 4) <==> EocdAt(s, k)
  {
    hide Le;
  }

  /** Where the search for the end record starts. */
  function SearchStart(s: seq<Octet>): nat {
    if |s| > SEARCH_LEN then |s| - SEARCH_LEN else 0
  }

  /** A written archive gives its entry count and directory, and the record of the shared area. */
  ghost predicate ReadsWrittenEnd(s: seq<Octet>, r: Result<End>) {
    forall entries :: Fits(entries) && s == ArchiveBytes(entries) ==> r == Success(WrittenEnd(entries))
  }

  lemma WrittenEndIsRead(s: seq<Octet>)
    ensures ReadsWrittenEnd(s, ReadEnd(s))
  {
    hide EntryOk, Area, ArchiveBytes, ReadEnd, WrittenEnd;
    forall entries | Fits(entries) && s == ArchiveBytes(entries)
      ensures ReadEnd(s) == Success(WrittenEnd(entries))
    {
      WrittenEndReads(entries);
    }
  }

  /** An archive without ZIP64 records gives exactly the three numbers of its end record, unless one is the sentinel. */
  ghost predicate ReadsPlainEnd(s: seq<Octet>, r: Result<End>) {
    forall front: seq<Octet>, e: Standard.EndRecord ::
      s == front + e.Bytes() && e.Ok() && Standard.NoLocator(front) && Standard.QuietComment(s, |front|) ==>
        r == if e.total < 0xFFFF && e.size < 0xFFFF_FFFF && e.offset < 0xFFFF_FFFF
             then Success(End(e.total, e.size, e.offset, None)) else Failure(NoZip64Locator)
  }

  lemma PlainEndIsRead(s: seq<Octet>)
    ensures ReadsPlainEnd(s, ReadEnd(s))
  {
    hide ReadEnd, Standard.EndRecord.Bytes, Standard.NoLocator, Standard.QuietComment;
    forall front: seq<Octet>, e: Standard.EndRecord |
      s == front + e.Bytes() && e.Ok() && Standard.NoLocator(front) && Standard.QuietComment(s, |front|)
      ensures ReadEnd(s) ==
              if e.total < 0xFFFF && e.size < 0xFFFF_FFFF && e.offset < 0xFFFF_FFFF
              then Success(End(e.total, e.size, e.offset, None)) else Failure(NoZip64Locator)
    {
      Standard.PlainEndReads(front, e);
    }
  }

  lemma EndFailures(s: seq<Octet>, eocd: nat)
    requires eocd + 22 <= |s|
    ensures ReadEndAt(s, eocd) != Failure(FileTooSmall) && ReadEndAt(s, eocd) != Failure(NoEocd)
  {
    hide Num;
  }

  method ReadEocd(s: seq<Octet>) returns (r: Result<End>)
    ensures r == ReadEnd(s)
    ensures r == Failure(FileTooSmall) <==> |s| < 22
    ensures r == Failure(NoEocd) <==>
              |s| >= 22 && forall k :: 0 <= k <= |s| - SearchStart(s) ==> !EocdAt(s[SearchStart(s)..], k)
    ensures ReadsWrittenEnd(s, r) && ReadsPlainEnd(s, r)
  {
    hide LastEocd, ReadEndAt, ReadsWrittenEnd, ReadsPlainEnd, EocdAt;
    WrittenEndIsRead(s);
    PlainEndIsRead(s);
    if |s| < 22 {
      return Failure(FileTooSmall);
    }
    var searchLen := if |s| <= SEARCH_LEN then |s| else SEARCH_LEN;
    var searchStart := |s| - searchLen;
    assert searchStart == SearchStart(s);
    ghost var tail := s[searchStart..];
    LastEocdIs(tail, |tail| - 22);
    var rel := FindEocd(s[searchStart..]);
    if rel.None? {
      return Failure(NoEocd);
    }
    NoRoom(tail, rel.value);
    EndFailures(s, searchStart + rel.value);
    return ReadEndAt(s, searchStart + rel.value);
  }

  lemma NoRoom(s: seq<Octet>, k: nat)
    requires EocdAt(s, k)
    ensures k <= |s| - 22
  {
  }

  // ---- Extra fields ------------------------------------------------------------------------------

  method FindField(extra: seq<Octet>, tag: nat) returns (r: Result<Option<seq<Octet>>>)
    ensures r == FieldFrom(extra, 0, tag)
  {
    var pos := 0;
    while pos + 4 <= |extra|
      invariant 0 <= pos <= |extra| && FieldFrom(extra, 0, tag) == FieldFrom(extra, pos, tag)
      decreases |extra| - pos
    {
      var size := Num(extra, pos + 2, 2);
      var start := pos + 4;
      if start + size > |extra| {
        return Failure(ExtraTruncated);
      }
      if Num(extra, pos, 2) == tag {
        return Success(Some(extra[start..start + size]));
      }
      pos := start + size;
    }
    return Success(None);
  }

  /** In any list of extra fields, the first ZIP64 field gives exactly the numbers that the record asks for, in their
      order; a field that is too short is refused, and without such a field there are no numbers. */
  ghost predicate ReadsNumbers(extra: seq<Octet>, needU: bool, needC: bool, needO: bool,
      r: Result<Option<Zip64Field>>) {
    forall fields :: FieldsOk(fields) && extra == FieldBytes(fields) ==>
      match FirstWith(fields, ZIP64_EXTRA_FIELD_TAG) {
        case None => r == Success(None)
        case Some(d) => NumbersOf(d, needU, needC, needO, r)
      }
  }

  ghost predicate NumbersOf(d: seq<Octet>, needU: bool, needC: bool, needO: bool, r: Result<Option<Zip64Field>>) {
    && (|d| < Width(needU) + Width(needC) + Width(needO) ==> r == Failure(ExtraTruncated))
    && forall u: nat, c: nat, o: nat, rest ::
         d == NumberBytes(needU, u) + NumberBytes(needC, c) + NumberBytes(needO, o) + rest
         && u <= U64_MAX && c <= U64_MAX && o <= U64_MAX
         ==> r == Success(Some(Zip64Field(Asked(needU, u), Asked(needC, c), Asked(needO, o))))
  }

  lemma NumbersOfField(d: seq<Octet>, needU: bool, needC: bool, needO: bool, r: Result<Option<Zip64Field>>)
    requires var f := Zip64Numbers(d, needU, needC, needO);
             r == if f.Success? then Success(Some(f.value)) else Failure(f.error)
    ensures NumbersOf(d, needU, needC, needO, r)
  {
    hide Zip64Numbers, NumberBytes, Asked;
    if |d| < Width(needU) + Width(needC) + Width(needO) {
      NumbersMissing(d, needU, needC, needO);
    }
    forall u: nat, c: nat, o: nat, rest |
      d == NumberBytes(needU, u) + NumberBytes(needC, c) + NumberBytes(needO, o) + rest
      && u <= U64_MAX && c <= U64_MAX && o <= U64_MAX
      ensures r == Success(Some(Zip64Field(Asked(needU, u), Asked(needC, c), Asked(needO, o))))
    {
      NumbersRead(needU, needC, needO, u, c, o, rest);
    }
  }

  lemma NumbersAreRead(extra: seq<Octet>, needU: bool, needC: bool, needO: bool)
    ensures ReadsNumbers(extra, needU, needC, needO, Zip64FieldOf(extra, needU, needC, needO))
  {
    hide FieldsOk, FieldBytes, FirstWith, FieldFrom, Zip64Numbers, NumbersOf;
    var r := Zip64FieldOf(extra, needU, needC, needO);
    forall fields | FieldsOk(fields) && extra == FieldBytes(fields)
      ensures match FirstWith(fields, ZIP64_EXTRA_FIELD_TAG) {
                case None => r == Success(None)
                case Some(d) => NumbersOf(d, needU, needC, needO, r)
              }
    {
      AtWhole(extra);
      FieldFound(extra, 0, fields, ZIP64_EXTRA_FIELD_TAG);
      var found := FirstWith(fields, ZIP64_EXTRA_FIELD_TAG);
      if found.Some? {
        NumbersOfField(found.value, needU, needC, needO, r);
      }
    }
  }

  method ParseZip64ExtraField(extra: seq<Octet>, needU: bool, needC: bool, needO: bool)
    returns (r: Result<Option<Zip64Field>>)
    ensures r == Zip64FieldOf(extra, needU, needC, needO)
    ensures ReadsNumbers(extra, needU, needC, needO, r)
  {
    hide FieldFrom, ReadsNumbers;
    NumbersAreRead(extra, needU, needC, needO);
    var data :- FindField(extra, ZIP64_EXTRA_FIELD_TAG);
    if data.None? {
      return Success(None);
    }
    var f :- Zip64Numbers(data.value, needU, needC, needO);
    return Success(Some(f));
  }

  /** In any list of extra fields, the first CZDI field gives the index that the writer stored for the entry, inline or
      in the shared area; without such a field there is none. */
  ghost predicate ReadsIndex(extra: seq<Octet>, area: Option<seq<Octet>>, r: Option<Czdi.Index>) {
    forall fields :: FieldsOk(fields) && extra == FieldBytes(fields) ==>
      match FirstWith(fields, CZDI_EXTRA_FIELD_TAG) {
        case None => r == None
        case Some(data) => IndexIn(data, area, r)
      }
  }

  ghost predicate IndexIn(data: seq<Octet>, area: Option<seq<Octet>>, r: Option<Czdi.Index>) {
    forall e, at :: EntryOk(e) && InShared(e, at, area) && data == CzdiPayload(e, at) ==> r == e.index
  }

  lemma IndexIsRead(extra: seq<Octet>, area: Option<seq<Octet>>)
    ensures ReadsIndex(extra, area, IndexOf(extra, area))
  {
    hide FieldsOk, FieldBytes, FirstWith, FieldFrom, StorageOf, BlobOf, IndexOfBlob, CzdiPayload, EntryOk;
    hide InShared, IndexIn;
    var r := IndexOf(extra, area);
    forall fields | FieldsOk(fields) && extra == FieldBytes(fields)
      ensures match FirstWith(fields, CZDI_EXTRA_FIELD_TAG) {
                case None => r == None
                case Some(data) => IndexIn(data, area, r)
              }
    {
      AtWhole(extra);
      FieldFound(extra, 0, fields, CZDI_EXTRA_FIELD_TAG);
      var found := FirstWith(fields, CZDI_EXTRA_FIELD_TAG);
      if found.Some? {
        StoredIndexIsRead(found.value, area);
      }
    }
  }

  lemma StoredIndexIsRead(data: seq<Octet>, area: Option<seq<Octet>>)
    ensures var storage := StorageOf(data);
            IndexIn(data, area, if storage.Failure? then None else IndexOfBlob(BlobOf(storage.value, area)))
  {
    hide StorageOf, BlobOf, IndexOfBlob, CzdiPayload, EntryOk, InShared;
    forall e, at | EntryOk(e) && InShared(e, at, area) && data == CzdiPayload(e, at)
      ensures StorageOf(data).Success? && IndexOfBlob(BlobOf(StorageOf(data).value, area)) == e.index
    {
      IndexReads(e, at, area);
    }
  }

  method ReadCzdiIndexBestEffort(extra: seq<Octet>, area: Option<seq<Octet>>) returns (r: Option<Czdi.Index>)
    ensures r == IndexOf(extra, area)
    ensures ReadsIndex(extra, area, r)
  {
    hide FieldFrom, StorageOf, BlobOf, Czdi.Decoded, ReadsIndex, Czdi.ReadsWritten, Czdi.Typed, Czdi.Encodable;
    IndexIsRead(extra, area);
    var data := FindField(extra, CZDI_EXTRA_FIELD_TAG);
    if data.Failure? || data.value.None? {
      return None;
    }
    var storage := StorageOf(data.value.value);
    if storage.Failure? {
      return None;
    }
    var blob := BlobOf(storage.value, area);
    if blob.None? {
      return None;
    }
    var index := Czdi.DecodeCzdiV1(blob.value);
    return if index.Success? then Some(index.value) else None;
  }

  // ---- Central directory -------------------------------------------------------------------------

  /** A written archive gives all of its entries. */
  ghost predicate ReadsWrittenEntries(s: seq<Octet>, r: Result<seq<ReadEntry>>) {
    forall entries :: Fits(entries) && s == ArchiveBytes(entries) ==> r == Success(Reports(entries, |entries|))
  }

  lemma WrittenEntriesAreRead(s: seq<Octet>)
    ensures ReadsWrittenEntries(s, ZipParse.ReadArchive(s))
  {
    hide EntryOk, Area, ArchiveBytes, ZipParse.ReadArchive, Reports;
    forall entries | Fits(entries) && s == ArchiveBytes(entries)
      ensures ZipParse.ReadArchive(s) == Success(Reports(entries, |entries|))
    {
      ZipRoundTrips(entries);
    }
  }

  /** An ordinary archive without ZIP64 end records gives all of its entries with their own numbers. */
  ghost predicate ReadsOrdinaryEntries(s: seq<Octet>, r: Result<seq<ReadEntry>>) {
    forall front: seq<Octet>, records: seq<Standard.DirectoryEntry>, e: Standard.EndRecord ::
      Ordinary(s, front, records, e) ==> r == Success(Standard.AllReported(records, None))
  }

  /** The parts of an ordinary archive. */
  ghost predicate Ordinary(s: seq<Octet>, front: seq<Octet>, records: seq<Standard.DirectoryEntry>,
      e: Standard.EndRecord)
  {
    var directory := Standard.Directory(records);
    && s == front + directory + e.Bytes() && Standard.Readable(records) && e.Ok() && e.total == |records| < 0xFFFF
    && e.offset == |front| < 0xFFFF_FFFF && e.size == |directory| < 0xFFFF_FFFF
    && Standard.NoLocator(front + directory) && Standard.QuietComment(s, |front + directory|)
  }

  lemma OrdinaryEntriesAreRead(s: seq<Octet>)
    ensures ReadsOrdinaryEntries(s, ZipParse.ReadArchive(s))
  {
    hide ZipParse.ReadArchive, Standard.EndRecord.Bytes, Standard.NoLocator, Standard.QuietComment, Standard.Directory;
    hide Standard.AllReported, Standard.Readable;
    forall front: seq<Octet>, records: seq<Standard.DirectoryEntry>, e: Standard.EndRecord |
      Ordinary(s, front, records, e)
      ensures ZipParse.ReadArchive(s) == Success(Standard.AllReported(records, None))
    {
      Standard.OrdinaryArchiveReads(front, records, e);
    }
  }

  method ReadCentralDirectoryEntries(s: seq<Octet>) returns (r: Result<seq<ReadEntry>>)
    ensures r == ReadArchive(s)
    ensures ReadsWrittenEntries(s, r) && ReadsOrdinaryEntries(s, r)
  {
    hide ReadEnd, AreaOf, ReadRecord, ReadsWrittenEntries, ReadsOrdinaryEntries, ReadsWrittenEnd, ReadsPlainEnd, EocdAt;
    WrittenEntriesAreRead(s);
    OrdinaryEntriesAreRead(s);
    var end :- ReadEocd(s);
    var area :- AreaOf(end.ext);
    if end.centralOffset + end.centralSize > |s| {
      return Failure(CentralOutOfRange);
    }
    var entries: seq<ReadEntry>, pos := [], end.centralOffset;
    for i := 0 to end.entries
      invariant |entries| == i
      invariant ReadRecords(s, end.centralOffset, end.entries, area, [])
            == ReadRecords(s, pos, end.entries, area, entries)
    {
      var e :- ReadOneRecord(s, pos, area);
      entries, pos := entries + [e.0], e.1;
    }
    return Success(entries);
  }

  method ReadOneRecord(s: seq<Octet>, pos: nat, area: Option<seq<Octet>>) returns (r: Result<(ReadEntry, nat)>)
    ensures r == ReadRecord(s, pos, area)
  {
    hide Zip64FieldOf, IndexOf, FromLe, ReadsNumbers, ReadsIndex;
    var fixed :- Slice(s, pos, 46);
    if Num(fixed, 0, 4) != CENTRAL_DIR_HEADER_SIG {
      return Failure(BadCentralSignature);
    }
    var gpFlags, zipMethod := Num(fixed, 8, 2), Num(fixed, 10, 2);
    if zipMethod != DEFLATE_METHOD && zipMethod != STORED_METHOD {
      return Failure(UnsupportedMethod);
    }
    if gpFlags % 2 == 1 {
      return Failure(Encrypted);
    }
    var compressed, uncompressed, offset := Num(fixed, 20, 4), Num(fixed, 24, 4), Num(fixed, 42, 4);
    var name :- Slice(s, pos + 46, Num(fixed, 28, 2));
    var extra :- Slice(s, pos + 46 + |name|, Num(fixed, 30, 2));
    var z :- ParseZip64ExtraField(extra, uncompressed == U32_MAX, compressed == U32_MAX, offset == U32_MAX);
    var big := FieldOrEmpty(z);
    uncompressed :- SizeOf(uncompressed, big.uncompressed);
    compressed :- SizeOf(compressed, big.compressed);
    offset :- SizeOf(offset, big.offset);
    var index := ReadCzdiIndexBestEffort(extra, area);
    var e := ReadEntry(name, gpFlags, zipMethod, Num(fixed, 16, 4), compressed, uncompressed, offset, index);
    return Success((e, pos + 46 + |name| + |extra| + Num(fixed, 32, 2)));
  }

  // ---- The seek to an entry's data ---------------------------------------------------------------

  /** From the local part of a written entry, the seek finds its payload, exactly unless its length is the sentinel. */
  ghost predicate SeeksPayload(s: seq<Octet>, e: ReadEntry, r: Result<(nat, nat)>) {
    forall x :: EntryOk(x) && At(s, e.localHeaderOffset, LocalPart(x)) && e == Reported(x, e.localHeaderOffset) ==>
      if |x.payload| == U32_MAX then r == Failure(MissingZip64Size)
      else r.Success? && r.value.1 == |x.payload| && At(s, r.value.0, x.payload)
  }

  lemma PayloadIsFound(s: seq<Octet>, e: ReadEntry)
    ensures SeeksPayload(s, e, EntryData(s, e))
  {
    hide EntryOk, At, LocalPart, Reported, EntryData;
    forall x | EntryOk(x) && At(s, e.localHeaderOffset, LocalPart(x)) && e == Reported(x, e.localHeaderOffset)
      ensures var r := EntryData(s, e);
              if |x.payload| == U32_MAX then r == Failure(MissingZip64Size)
              else r.Success? && r.value.1 == |x.payload| && At(s, r.value.0, x.payload)
    {
      LocalSeek(s, x, e.localHeaderOffset);
    }
  }

  /** From any local header, the seek lands behind its name and its extra fields, and the length is the directory's,
      unless that is the sentinel. */
  ghost predicate SeeksBehindHeader(s: seq<Octet>, e: ReadEntry, r: Result<(nat, nat)>) {
    forall l: Standard.LocalHead ::
      l.Ok() && At(s, e.localHeaderOffset, l.Bytes()) && e.compressedSize != 0xFFFF_FFFF ==>
        r == Success((e.localHeaderOffset + 30 + |l.name| + |l.extra|, e.compressedSize))
  }

  lemma AnyHeaderIsPassed(s: seq<Octet>, e: ReadEntry)
    ensures SeeksBehindHeader(s, e, EntryData(s, e))
  {
    hide At, EntryData, Standard.LocalHead.Fixed;
    forall l: Standard.LocalHead |
      l.Ok() && At(s, e.localHeaderOffset, l.Bytes()) && e.compressedSize != 0xFFFF_FFFF
      ensures EntryData(s, e) == Success((e.localHeaderOffset + 30 + |l.name| + |l.extra|, e.compressedSize))
    {
      Standard.AnySeek(s, e, l);
    }
  }

  method PositionReaderAtEntryData(s: seq<Octet>, e: ReadEntry) returns (r: Result<(nat, nat)>)
    ensures r == EntryData(s, e)
    ensures SeeksPayload(s, e, r) && SeeksBehindHeader(s, e, r)
  {
    hide Zip64FieldOf, FromLe, SeeksPayload, SeeksBehindHeader, ReadsNumbers;
    PayloadIsFound(s, e);
    AnyHeaderIsPassed(s, e);
    var fixed :- Slice(s, e.localHeaderOffset, 30);
    if Num(fixed, 0, 4) != LOCAL_FILE_HEADER_SIG {
      return Failure(BadLocalSignature);
    }
    var pos := e.localHeaderOffset + 30 + Num(fixed, 26, 2);
    var extra :- Slice(s, pos, Num(fixed, 28, 2));
    var compressedSize := e.compressedSize;
    if compressedSize == U32_MAX {
      var z :- ParseZip64ExtraField(extra, false, true, false);
      if z.None? || z.value.compressed.None? {
        return Failure(MissingZip64Size);
      }
      compressedSize := z.value.compressed.value;
    }
    return Success((pos + |extra|, compressedSize));
  }
}
