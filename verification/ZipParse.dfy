/** What the bytes of a ZIP64 container say to a reader: end records, central directory, extra fields and the seek to an
    entry's data. */
module ZipParse {
  import opened Options
  import opened Octets
  import opened ZipFormat
  import Czdi

  datatype Error =
    | FileTooSmall
    | NoEocd
    | NoZip64Locator
    | BadZip64Signature
    | Zip64RecordTooShort
    | CentralOutOfRange
    | BadCentralSignature
    | UnsupportedMethod
    | Encrypted
    | UnexpectedEof
    | ExtraTruncated
    | MissingZip64Size
    | BadLocalSignature
    | AreaTruncated
    | BadAreaVersion
    | CzdiExtraInvalid

  datatype Result<+T> = Success(value: T) | Failure(error: Error) {
    predicate IsFailure() {
      Failure?
    }
    function PropagateFailure<U>(): Result<U>
      requires Failure?
    {
      Failure(error)
    }
    function Extract(): T
      requires Success?
    {
      value
    }
  }

  /** Reading exactly `n` octets at a position; reading none succeeds anywhere. */
  function Slice(s: seq<Octet>, p: nat, n: nat): (r: Result<seq<Octet>>)
    ensures r.Success? ==> |r.value| == n
  {
    if n == 0 then Success([]) else if p + n <= |s| then Success(s[p..p + n]) else Failure(UnexpectedEof)
  }

  function Num(s: seq<Octet>, p: nat, n: nat): nat
    requires p + n <= |s|
  {
    FromLe(s[p..p + n])
  }

  // ---- End records -------------------------------------------------------------------------------

  /** The last position up to `k` where the end record's signature stands. */
  function LastEocd(s: seq<Octet>, k: nat): (r: Option<nat>)
    requires k + 22 <= |s|
    ensures r.Some? ==> r.value <= k && s[r.value..r.value + 4] == Le(EOCD_SIG, 4)
  {
    if s[k..k + 4] == Le(EOCD_SIG, 4) then Some(k) else if k == 0 then None else LastEocd(s, k - 1)
  }

  datatype End = End(entries: nat, centralSize: nat, centralOffset: nat, ext: Option<seq<Octet>>)

  /** The ZIP64 end record, when a locator stands in front of the end record. */
  function ReadZip64End(s: seq<Octet>, eocd: nat): Result<Option<End>> {
    if eocd < 20 then Success(None)
    else
      var locator :- Slice(s, eocd - 20, 20);
      if Num(locator, 0, 4) != ZIP64_EOCD_LOCATOR_SIG then Success(None)
      else
        var at := Num(locator, 8, 8);
        var prefix :- Slice(s, at, 12);
        if Num(prefix, 0, 4) != ZIP64_EOCD_SIG then Failure(BadZip64Signature)
        else
          var size := Num(prefix, 4, 8);
          if size < 44 then Failure(Zip64RecordTooShort)
          else
            var tail :- Slice(s, at + 12, size);
            Success(Some(End(Num(tail, 20, 8), Num(tail, 28, 8), Num(tail, 36, 8),
                             if size > 44 then Some(tail[44..]) else None)))
  }

  const SEARCH_LEN: nat := 22 + 65535

  function ReadEndAt(s: seq<Octet>, eocd: nat): Result<End>
    requires eocd + 22 <= |s|
  {
    var entries, size, offset := Num(s, eocd + 10, 2), Num(s, eocd + 12, 4), Num(s, eocd + 16, 4);
    var zip64 :- ReadZip64End(s, eocd);
    if zip64.Some? then Success(zip64.value)
    else if entries == U16_MAX || size == U32_MAX || offset == U32_MAX then Failure(NoZip64Locator)
    else Success(End(entries, size, offset, None))
  }

  function ReadEnd(s: seq<Octet>): Result<End> {
    if |s| < 22 then Failure(FileTooSmall)
    else
      var from := if |s| > SEARCH_LEN then |s| - SEARCH_LEN else 0;
      var tail := s[from..];
      match LastEocd(tail, |tail| - 22)
      case None => Failure(NoEocd)
      case Some(rel) => ReadEndAt(s, from + rel)
  }

  // ---- Extra fields ------------------------------------------------------------------------------

  /** The payload of the first field with the tag, from `p` on. */
  function FieldFrom(extra: seq<Octet>, p: nat, tag: nat): (r: Result<Option<seq<Octet>>>)
    decreases |extra| - p
  {
    if p + 4 > |extra| then Success(None)
    else
      var size := Num(extra, p + 2, 2);
      if p + 4 + size > |extra| then Failure(ExtraTruncated)
      else if Num(extra, p, 2) == tag then Success(Some(extra[p + 4..p + 4 + size]))
      else FieldFrom(extra, p + 4 + size, tag)
  }

  datatype Zip64Field = Zip64Field(uncompressed: Option<nat>, compressed: Option<nat>, offset: Option<nat>)

  /** One number of the ZIP64 field, present only when the record asks for it. */
  function OptionalNum(data: seq<Octet>, p: nat, needed: bool): Result<(Option<nat>, nat)> {
    if !needed then Success((None, p))
    else if p + 8 > |data| then Failure(ExtraTruncated)
    else Success((Some(Num(data, p, 8)), p + 8))
  }

  function Zip64Numbers(data: seq<Octet>, needU: bool, needC: bool, needO: bool): Result<Zip64Field> {
    var u :- OptionalNum(data, 0, needU);
    var c :- OptionalNum(data, u.1, needC);
    var o :- OptionalNum(data, c.1, needO);
    Success(Zip64Field(u.0, c.0, o.0))
  }

  function Zip64FieldOf(extra: seq<Octet>, needU: bool, needC: bool, needO: bool): Result<Option<Zip64Field>> {
    var data :- FieldFrom(extra, 0, ZIP64_EXTRA_FIELD_TAG);
    match data
    case None => Success(None)
    case Some(d) =>
      var f :- Zip64Numbers(d, needU, needC, needO);
      Success(Some(f))
  }

  /** Where an entry's chunk index is. */
  datatype Storage = NoIndex | Inline(blob: seq<Octet>) | InArea(offset: nat, len: nat, crc: nat)

  function StorageOf(data: seq<Octet>): Result<Storage> {
    if |data| < 4 || data[0] != 1 then Failure(CzdiExtraInvalid)
    else if data[1] == 0 then
      if |data| < 12 || 12 + Num(data, 4, 4) > |data| then Failure(CzdiExtraInvalid)
      else
        var blob := data[12..12 + Num(data, 4, 4)];
        if Czdi.TableCrc(blob) != Num(data, 8, 4) then Failure(CzdiExtraInvalid) else Success(Inline(blob))
    else if data[1] == 1 then
      if |data| < 16 then Failure(CzdiExtraInvalid)
      else Success(InArea(Num(data, 4, 4), Num(data, 8, 4), Num(data, 12, 4)))
    else if data[1] == 2 then Success(NoIndex)
    else Failure(CzdiExtraInvalid)
  }

  /** The shared area from the end record's extensible data; none when it is something else. */
  function AreaOf(ext: Option<seq<Octet>>): Result<Option<seq<Octet>>> {
    if ext.None? || ext.value == [] then Success(None)
    else
      var s := ext.value;
      if |s| < 12 then Failure(AreaTruncated)
      else if s[..4] != CZDI_EOCD64_MAGIC then Success(None)
      else if s[4] != 1 then Failure(BadAreaVersion)
      else if 12 + Num(s, 8, 4) > |s| then Failure(AreaTruncated)
      else Success(Some(s[12..12 + Num(s, 8, 4)]))
  }

  /** The blob, when it is there and its checksum is right. */
  function BlobOf(storage: Storage, area: Option<seq<Octet>>): Option<seq<Octet>> {
    match storage
    case NoIndex => None
    case Inline(blob) => Some(blob)
    case InArea(offset, len, crc) =>
      if area.None? || offset + len > |area.value| then None
      else
        var blob := area.value[offset..offset + len];
        if Czdi.TableCrc(blob) != crc then None else Some(blob)
  }

  function IndexOfBlob(blob: Option<seq<Octet>>): Option<Czdi.Index> {
    match blob
    case None => None
    case Some(b) => if Czdi.Decoded(b).Success? then Some(Czdi.Decoded(b).value) else None
  }

  /** An index that cannot be read is as good as none. */
  function IndexOf(extra: seq<Octet>, area: Option<seq<Octet>>): Option<Czdi.Index> {
    match FieldFrom(extra, 0, CZDI_EXTRA_FIELD_TAG)
    case Failure(_) => None
    case Success(None) => None
    case Success(Some(data)) =>
      var storage := StorageOf(data);
      if storage.Failure? then None else IndexOfBlob(BlobOf(storage.value, area))
  }

  // ---- Central directory -------------------------------------------------------------------------

  datatype ReadEntry = ReadEntry(
    name: seq<Octet>,
    gpFlags: nat,
    method_: nat,
    crc: nat,
    compressedSize: nat,
    uncompressedSize: nat,
    localHeaderOffset: nat,
    index: Option<Czdi.Index>)

  /** A size from the record, or from the ZIP64 field when the record holds the sentinel. */
  function SizeOf(small: nat, big: Option<nat>): Result<nat> {
    if small != U32_MAX then Success(small) else if big.None? then Failure(MissingZip64Size) else Success(big.value)
  }

  function FieldOrEmpty(f: Option<Zip64Field>): Zip64Field {
    if f.Some? then f.value else Zip64Field(None, None, None)
  }

  /** The variable part of a record. */
  function ReadVariable(fixed: seq<Octet>, name: seq<Octet>, extra: seq<Octet>,
      area: Option<seq<Octet>>): Result<ReadEntry>
    requires |fixed| == 46
  {
    var c, u, o := Num(fixed, 20, 4), Num(fixed, 24, 4), Num(fixed, 42, 4);
    var z :- Zip64FieldOf(extra, u == U32_MAX, c == U32_MAX, o == U32_MAX);
    var big := FieldOrEmpty(z);
    var uncompressed :- SizeOf(u, big.uncompressed);
    var compressed :- SizeOf(c, big.compressed);
    var offset :- SizeOf(o, big.offset);
    Success(ReadEntry(name, Num(fixed, 8, 2), Num(fixed, 10, 2), Num(fixed, 16, 4), compressed, uncompressed, offset,
                      IndexOf(extra, area)))
  }

  /** One record: the entry and where the next record starts. */
  function ReadRecord(s: seq<Octet>, p: nat, area: Option<seq<Octet>>): Result<(ReadEntry, nat)> {
    var fixed :- Slice(s, p, 46);
    if Num(fixed, 0, 4) != CENTRAL_DIR_HEADER_SIG then Failure(BadCentralSignature)
    else if Num(fixed, 10, 2) != DEFLATE_METHOD && Num(fixed, 10, 2) != STORED_METHOD then Failure(UnsupportedMethod)
    else if Num(fixed, 8, 2) % 2 == 1 then Failure(Encrypted)
    else
      var nameLen, extraLen, commentLen := Num(fixed, 28, 2), Num(fixed, 30, 2), Num(fixed, 32, 2);
      var name :- Slice(s, p + 46, nameLen);
      var extra :- Slice(s, p + 46 + nameLen, extraLen);
      var e :- ReadVariable(fixed, name, extra, area);
      Success((e, p + 46 + nameLen + extraLen + commentLen))
  }

  function ReadRecords(s: seq<Octet>, p: nat, count: nat, area: Option<seq<Octet>>,
      before: seq<ReadEntry>): Result<seq<ReadEntry>>
    requires |before| <= count
    decreases count - |before|
  {
    if |before| == count then Success(before)
    else
      var e :- ReadRecord(s, p, area);
      ReadRecords(s, e.1, count, area, before + [e.0])
  }

  function ReadArchive(s: seq<Octet>): Result<seq<ReadEntry>> {
    var end :- ReadEnd(s);
    var area :- AreaOf(end.ext);
    if end.centralOffset + end.centralSize > |s| then Failure(CentralOutOfRange)
    else ReadRecords(s, end.centralOffset, end.entries, area, [])
  }

  // ---- The seek to an entry's data ---------------------------------------------------------------

  /** Where the data of an entry stands and how long it is. */
  function EntryData(s: seq<Octet>, e: ReadEntry): Result<(nat, nat)> {
    var fixed :- Slice(s, e.localHeaderOffset, 30);
    if Num(fixed, 0, 4) != LOCAL_FILE_HEADER_SIG then Failure(BadLocalSignature)
    else
      var p := e.localHeaderOffset + 30 + Num(fixed, 26, 2);
      var extra :- Slice(s, p, Num(fixed, 28, 2));
      if e.compressedSize != U32_MAX then Success((p + |extra|, e.compressedSize))
      else
        var z :- Zip64FieldOf(extra, false, true, false);
        if FieldOrEmpty(z).compressed.None? then Failure(MissingZip64Size)
        else Success((p + |extra|, FieldOrEmpty(z).compressed.value))
  }
}
