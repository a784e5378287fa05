/** The parts of the ZIP64 container that are written: headers, directory records and the chunk index extension.
    Sections 4.3 and 4.5.3 of the ZIP APPNOTE give the layouts. */
module ZipFormat {
  import opened Options
  import opened Octets
  import Czdi

  const LOCAL_FILE_HEADER_SIG: nat := 0x0403_4b50
  const CENTRAL_DIR_HEADER_SIG: nat := 0x0201_4b50
  const EOCD_SIG: nat := 0x0605_4b50
  const DATA_DESCRIPTOR_SIG: nat := 0x0807_4b50
  const ZIP64_EOCD_SIG: nat := 0x0606_4b50
  const ZIP64_EOCD_LOCATOR_SIG: nat := 0x0706_4b50
  const ZIP64_EXTRA_FIELD_TAG: nat := 0x0001
  const CZDI_EXTRA_FIELD_TAG: nat := 0x435A
  const CZDI_EOCD64_MAGIC: seq<Octet> := [67, 90, 68, 71]

  /** Data descriptor and UTF-8 name. */
  const GP_FLAGS: nat := 0x0808
  const DEFLATE_METHOD: nat := 8
  const STORED_METHOD: nat := 0
  const ZIP_VERSION_ZIP64: nat := 45

  /** The largest index blob that is stored in the entry's own extra field. */
  const MAX_INLINE_BLOB: nat := 0xFFFF - 28 - 4 - 12

  /** An entry of the central directory to be written; `payload` is what stands between its headers. */
  datatype Entry = Entry(
    name: seq<Octet>,
    crc: nat,
    payload: seq<Octet>,
    uncompressedSize: nat,
    index: Option<Czdi.Index>)

  /** The numbers fit the integer types of the source, the name length has a field, and the index can be encoded. */
  predicate EntryOk(e: Entry) {
    && |e.name| <= U16_MAX && e.crc <= U32_MAX && |e.payload| <= U64_MAX && e.uncompressedSize <= U64_MAX
    && (e.index.Some? ==> Czdi.Typed(e.index.value) && Czdi.Encodable(e.index.value))
  }

  predicate EntriesOk(entries: seq<Entry>) {
    forall i :: 0 <= i < |entries| ==> EntryOk(entries[i])
  }

  // ---- Local part --------------------------------------------------------------------------------

  function LocalStart(): (s: seq<Octet>)
    ensures |s| == 26
  {
    Le(LOCAL_FILE_HEADER_SIG, 4) + (Le(ZIP_VERSION_ZIP64, 2) + Le(GP_FLAGS, 2) + Le(DEFLATE_METHOD, 2) + Le(0, 16))
  }

  function LocalHeader(e: Entry): (s: seq<Octet>)
    ensures |s| == 30 + |e.name|
  {
    LocalStart() + (Le(|e.name|, 2) + Le(0, 2)) + e.name
  }

  function DataDescriptor(e: Entry): (s: seq<Octet>)
    ensures |s| == 24
  {
    Le(DATA_DESCRIPTOR_SIG, 4) + Le(e.crc, 4) + Le(|e.payload|, 8) + Le(e.uncompressedSize, 8)
  }

  function LocalPart(e: Entry): (s: seq<Octet>)
    ensures |s| == 54 + |e.name| + |e.payload|
  {
    LocalHeader(e) + e.payload + DataDescriptor(e)
  }

  function LocalParts(entries: seq<Entry>): seq<Octet> {
    if entries == [] then [] else LocalParts(entries[..|entries| - 1]) + LocalPart(entries[|entries| - 1])
  }

  /** Where the local header of the `i`-th entry stands. */
  function LocalOffset(entries: seq<Entry>, i: nat): nat
    requires i <= |entries|
  {
    |LocalParts(entries[..i])|
  }

  // ---- The chunk index ---------------------------------------------------------------------------

  function Blob(x: Czdi.Index): seq<Octet>
    requires Czdi.Encodable(x)
  {
    Czdi.HeaderBytes(x, Czdi.TableBytes(x.entries)) + Czdi.TableBytes(x.entries)
  }

  predicate IsLarge(e: Entry)
    requires EntryOk(e)
  {
    e.index.Some? && |Blob(e.index.value)| > MAX_INLINE_BLOB
  }

  /** The blobs that do not fit an extra field, one behind the other. */
  function Area(entries: seq<Entry>): seq<Octet>
    requires EntriesOk(entries)
  {
    if entries == [] then []
    else
      var last := entries[|entries| - 1];
      Area(entries[..|entries| - 1]) + if IsLarge(last) then Blob(last.index.value) else []
  }

  function CzdiHead(storage: Octet): (s: seq<Octet>)
    ensures |s| == 4
  {
    [1, storage] + Le(0, 2)
  }

  /** The payload of the extra field; `at` is where the blob stands in the shared area. */
  function CzdiPayload(e: Entry, at: nat): seq<Octet>
    requires EntryOk(e)
  {
    if e.index.None? then CzdiHead(2)
    else
      var blob := Blob(e.index.value);
      if |blob| <= MAX_INLINE_BLOB then CzdiHead(0) + (Le(|blob|, 4) + Le(Czdi.TableCrc(blob), 4)) + blob
      else CzdiHead(1) + (Le(at, 4) + Le(|blob|, 4) + Le(Czdi.TableCrc(blob), 4))
  }

  function CzdiExtra(e: Entry, at: nat): (s: seq<Octet>)
    requires EntryOk(e)
    ensures |s| == 4 + |CzdiPayload(e, at)|
  {
    Le(CZDI_EXTRA_FIELD_TAG, 2) + Le(|CzdiPayload(e, at)|, 2) + CzdiPayload(e, at)
  }

  // ---- Central directory -------------------------------------------------------------------------

  function Zip64Extra(uncompressedSize: nat, compressedSize: nat, localOffset: nat): (s: seq<Octet>)
    ensures |s| == 28
  {
    (Le(ZIP64_EXTRA_FIELD_TAG, 2) + Le(24, 2)) + (Le(uncompressedSize, 8) + Le(compressedSize, 8) + Le(localOffset, 8))
  }

  function CentralStart(): (s: seq<Octet>)
    ensures |s| == 16
  {
    Le(CENTRAL_DIR_HEADER_SIG, 4) + Le(ZIP_VERSION_ZIP64, 2) + Le(ZIP_VERSION_ZIP64, 2) +
    (Le(GP_FLAGS, 2) + Le(DEFLATE_METHOD, 2) + Le(0, 4))
  }

  function CentralSizes(crc: nat): (s: seq<Octet>)
    ensures |s| == 12
  {
    Le(crc, 4) + Le(0xFFFF_FFFF, 4) + Le(0xFFFF_FFFF, 4)
  }

  function CentralLengths(nameLen: nat, extraLen: nat): (s: seq<Octet>)
    ensures |s| == 6
  {
    Le(nameLen, 2) + Le(extraLen, 2) + Le(0, 2)
  }

  function CentralEnd(): (s: seq<Octet>)
    ensures |s| == 12
  {
    Le(0, 8) + Le(0xFFFF_FFFF, 4)
  }

  function CentralFixed(crc: nat, nameLen: nat, extraLen: nat): (s: seq<Octet>)
    ensures |s| == 46
  {
    CentralStart() + CentralSizes(crc) + CentralLengths(nameLen, extraLen) + CentralEnd()
  }

  function CentralRecord(e: Entry, localOffset: nat, at: nat): (s: seq<Octet>)
    requires EntryOk(e)
    ensures |s| == 46 + |e.name| + 28 + |CzdiExtra(e, at)|
  {
    CentralFixed(e.crc, |e.name|, 28 + |CzdiExtra(e, at)|) + e.name +
    (Zip64Extra(e.uncompressedSize, |e.payload|, localOffset) + CzdiExtra(e, at))
  }

  function CentralDirectory(entries: seq<Entry>): seq<Octet>
    requires EntriesOk(entries)
  {
    if entries == [] then []
    else
      var n := |entries| - 1;
      CentralDirectory(entries[..n]) + CentralRecord(entries[n], LocalOffset(entries, n), |Area(entries[..n])|)
  }

  // ---- End records -------------------------------------------------------------------------------

  /** The shared area with its header; nothing when it is empty. */
  function AreaRecord(area: seq<Octet>): seq<Octet> {
    if area == [] then [] else CZDI_EOCD64_MAGIC + ([1, 0] + Le(0, 2)) + Le(|area|, 4) + area
  }

  function Zip64Eocd(count: nat, size: nat, offset: nat, ext: seq<Octet>): (s: seq<Octet>)
    ensures |s| == 56 + |ext|
  {
    (Le(ZIP64_EOCD_SIG, 4) + Le(44 + |ext|, 8)) +
    (Le(ZIP_VERSION_ZIP64, 2) + Le(ZIP_VERSION_ZIP64, 2) + Le(0, 8) + Le(count, 8)) +
    (Le(count, 8) + Le(size, 8) + Le(offset, 8)) + ext
  }

  function Locator(eocd64Offset: nat): (s: seq<Octet>)
    ensures |s| == 20
  {
    Le(ZIP64_EOCD_LOCATOR_SIG, 4) + Le(0, 4) + Le(eocd64Offset, 8) + Le(1, 4)
  }

  function Sentinel(v: nat, max: nat): nat {
    if v > max then max else v
  }

  function Eocd(count: nat, size: nat, offset: nat): (s: seq<Octet>)
    ensures |s| == 22
  {
    (Le(EOCD_SIG, 4) + Le(0, 4) + Le(Sentinel(count, U16_MAX), 2)) +
    (Le(Sentinel(count, U16_MAX), 2) + Le(Sentinel(size, U32_MAX), 4) + Le(Sentinel(offset, U32_MAX), 4) + Le(0, 2))
  }

  function ArchiveBytes(entries: seq<Entry>): seq<Octet>
    requires EntriesOk(entries)
  {
    var locals, directory, ext := LocalParts(entries), CentralDirectory(entries), AreaRecord(Area(entries));
    locals + directory + Zip64Eocd(|entries|, |directory|, |locals|, ext) + Locator(|locals| + |directory|)
    + Eocd(|entries|, |directory|, |locals|)
  }
}
