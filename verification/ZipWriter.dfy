/** The ZIP writer: entries one behind the other, then the central directory and the end records. */
module ZipWriter {
  import opened Options
  import opened Octets
  import opened ZipFormat
  import Czdi

  datatype WriteError = DataTooLarge | IndexNotEncodable

  datatype Outcome = Done | Refused(error: WriteError)

  /** What the writer keeps of an entry for the central directory. */
  datatype CentralEntry = CentralEntry(
    name: seq<Octet>,
    crc: nat,
    compressedSize: nat,
    uncompressedSize: nat,
    localHeaderOffset: nat,
    czdiBlob: Option<seq<Octet>>)

  function CentralOf(e: Entry, localOffset: nat): CentralEntry
    requires EntryOk(e)
  {
    CentralEntry(e.name, e.crc, |e.payload|, e.uncompressedSize, localOffset,
                 if e.index.Some? then Some(Blob(e.index.value)) else None)
  }

  ghost predicate Kept(central: seq<CentralEntry>, entries: seq<Entry>) {
    && EntriesOk(entries) && |central| == |entries|
    && forall i :: 0 <= i < |entries| ==> central[i] == CentralOf(entries[i], LocalOffset(entries, i))
  }

  lemma KeepMore(central: seq<CentralEntry>, entries: seq<Entry>, e: Entry)
    requires Kept(central, entries) && EntryOk(e)
    ensures Kept(central + [CentralOf(e, |LocalParts(entries)|)], entries + [e])
    ensures LocalParts(entries + [e]) == LocalParts(entries) + LocalPart(e)
  {
    hide EntryOk, LocalParts, LocalPart, Blob;
    var more := entries + [e];
    forall i | 0 <= i < |more|
      ensures LocalOffset(more, i) == if i < |entries| then LocalOffset(entries, i) else |LocalParts(entries)|
    {
      assert more[..i] == if i < |entries| then entries[..i] else entries;
    }
    LastPart(entries, e);
  }

  lemma LastPart(entries: seq<Entry>, e: Entry)
    ensures LocalParts(entries + [e]) == LocalParts(entries) + LocalPart(e)
  {
    assert (entries + [e])[..|entries|] == entries;
  }

  /** The extra field of an entry, from its blob. */
  function ExtraPayload(blob: Option<seq<Octet>>, at: nat): seq<Octet> {
    if blob.None? then CzdiHead(2)
    else if |blob.value| <= MAX_INLINE_BLOB then
      CzdiHead(0) + (Le(|blob.value|, 4) + Le(Czdi.TableCrc(blob.value), 4)) + blob.value
    else CzdiHead(1) + (Le(at, 4) + Le(|blob.value|, 4) + Le(Czdi.TableCrc(blob.value), 4))
  }

  method EncodeCzdiExtraField(blob: Option<seq<Octet>>, at: nat) returns (out: seq<Octet>)
    ensures out == Le(CZDI_EXTRA_FIELD_TAG, 2) + Le(|ExtraPayload(blob, at)|, 2) + ExtraPayload(blob, at)
  {
    hide Le, CzdiHead, Czdi.TableCrc;
    var payload := ExtraPayload(blob, at);
    return Le(CZDI_EXTRA_FIELD_TAG, 2) + Le(|payload|, 2) + payload;
  }

  lemma {:induction false} AreaGrows(entries: seq<Entry>, i: nat)
    requires EntriesOk(entries) && i <= |entries|
    ensures |Area(entries[..i])| <= |Area(entries)|
    decreases |entries| - i
  {
    hide Blob, Czdi.Typed, Czdi.Encodable, IsLarge;
    if i < |entries| {
      assert entries[..i + 1][..i] == entries[..i];
      AreaGrows(entries, i + 1);
    } else {
      assert entries[..i] == entries;
    }
  }

  /** Where each large blob goes in the shared area; refused when the area outgrows its 32-bit fields. */
  method ResolveCzdiWritePlan(central: seq<CentralEntry>, ghost entries: seq<Entry>)
    returns (r: Option<(seq<nat>, seq<Octet>)>)
    requires Kept(central, entries)
    ensures r.Some? <==> |Area(entries)| <= U32_MAX
    ensures r.Some? ==> |r.value.0| == |central| && r.value.1 == Area(entries)
    ensures r.Some? ==> forall i :: 0 <= i < |central| ==> r.value.0[i] == |Area(entries[..i])|
  {
    hide EntryOk, LocalParts, Blob, Area;
    var ats: seq<nat>, area: seq<Octet> := [], [];
    NoArea(entries);
    for i := 0 to |central|
      invariant |ats| == i && area == Area(entries[..i])
      invariant forall k :: 0 <= k < i ==> ats[k] == |Area(entries[..k])|
    {
      ats := ats + [|area|];
      AreaStep(entries, i);
      AreaGrows(entries, i);
      AreaGrows(entries, i + 1);
      var blob := central[i].czdiBlob;
      if blob.Some? && |blob.value| > MAX_INLINE_BLOB {
        if |area| > U32_MAX || |blob.value| > U32_MAX {
          return None;
        }
        area := area + blob.value;
      }
    }
    assert entries[..|entries|] == entries;
    if |area| > U32_MAX {
      return None;
    }
    return Some((ats, area));
  }

  lemma NoArea(entries: seq<Entry>)
    requires EntriesOk(entries)
    ensures Area(entries[..0]) == []
  {
  }

  lemma AreaStep(entries: seq<Entry>, i: nat)
    requires EntriesOk(entries) && i < |entries|
    ensures var blob := CentralOf(entries[i], 0).czdiBlob;
            Area(entries[..i + 1]) == Area(entries[..i]) + if blob.Some?
                && |blob.value| > MAX_INLINE_BLOB then blob.value else []
  {
    hide Blob, Czdi.Typed, Czdi.Encodable;
    assert entries[..i + 1][..i] == entries[..i];
  }

  class ZipWriteState {
    var out: seq<Octet>
    var offset: nat
    var central: seq<CentralEntry>
    ghost var entries: seq<Entry>

    ghost predicate Valid()
      reads this
    {
      Kept(central, entries) && out == LocalParts(entries) && offset == |out|
    }

    constructor ()
      ensures Valid() && entries == []
    {
      out, offset, central, entries := [], 0, [], [];
    }

    method Emit(part: seq<Octet>)
      modifies this`out
      ensures out == old(out) + part
    {
      out := out + part;
    }

    /** One entry, whose payload and numbers the compressor supplies. */
    method WriteEntry(e: Entry) returns (r: Outcome)
      requires Valid() && e.crc <= U32_MAX && e.uncompressedSize <= U64_MAX && |e.payload| <= U64_MAX
      requires e.index.Some? ==> Czdi.Typed(e.index.value)
      modifies this
      ensures r.Done? ==> Valid() && entries == old(entries) + [e] && out == old(out) + LocalPart(e)
      ensures r.Done? <==> EntryOk(e) && old(offset) + |LocalPart(e)| <= U64_MAX
    {
      hide Le, LocalStart, Czdi.TableBytes, Czdi.HeaderBytes, Czdi.Typed, LocalParts, Kept;
      if |e.name| > U16_MAX {
        return Refused(DataTooLarge);
      }
      var localHeaderOffset := offset;
      Emit(LocalStart());
      Emit(Le(|e.name|, 2) + Le(0, 2));
      Emit(e.name);
      Emit(e.payload);
      Emit(DataDescriptor(e));
      offset := offset + 30 + |e.name| + |e.payload| + 24;
      if offset > U64_MAX {
        return Refused(DataTooLarge);
      }
      var blob := None;
      if e.index.Some? {
        var encoded := Czdi.EncodeCzdiV1(e.index.value);
        if encoded.Failure? {
          return Refused(IndexNotEncodable);
        }
        blob := Some(encoded.value);
      }
      KeepMore(central, entries, e);
      central := central + [CentralEntry(e.name, e.crc, |e.payload|, e.uncompressedSize, localHeaderOffset, blob)];
      entries := entries + [e];
      assert out == old(out) + LocalPart(e);
      return Done;
    }

    method WriteDirectory(ats: seq<nat>)
      requires Valid() && |ats| == |central| && forall i :: 0 <= i < |ats| ==> ats[i] == |Area(entries[..i])|
      modifies this`out, this`offset
      ensures out == old(out) + CentralDirectory(entries) && offset == |out|
    {
      hide Le, LocalParts, Area, Czdi.TableCrc, CentralFixed, Zip64Extra, CzdiHead, EntryOk, CentralDirectory, Blob;
      NoDirectory(entries);
      for i := 0 to |central|
        invariant out == old(out) + CentralDirectory(entries[..i]) && offset == |out|
      {
        var c := central[i];
        var extra := EncodeCzdiExtraField(c.czdiBlob, ats[i]);
        SameRecord(entries[i], LocalOffset(entries, i), ats[i]);
        DirectoryStep(entries, i);
        var before := out;
        Emit(CentralFixed(c.crc, |c.name|, 28 + |extra|));
        Emit(c.name);
        Emit(Zip64Extra(c.uncompressedSize, c.compressedSize, c.localHeaderOffset) + extra);
        assert out == before + CentralRecord(entries[i], c.localHeaderOffset, ats[i]);
        offset := offset + 46 + (28 + |extra|) + |c.name|;
      }
      assert entries[..|entries|] == entries;
    }

    /** The central directory and the end records. Refused exactly when the shared index area does not fit
        its 32-bit fields or the archive does not fit 64-bit offsets. */
    method Finish() returns (r: Outcome)
      requires Valid()
      modifies this
      ensures entries == old(entries) && EntriesOk(entries)
      ensures r.Done? <==> |Area(entries)| <= U32_MAX && |ArchiveBytes(entries)| <= U64_MAX
      ensures r.Done? ==> out == ArchiveBytes(entries)
    {
      hide LocalParts, Area, CentralDirectory, AreaRecord, Zip64Eocd, Locator, Eocd, EntryOk;
      var plan := ResolveCzdiWritePlan(central, entries);
      if plan.None? {
        return Refused(DataTooLarge);
      }
      var (ats, area) := plan.value;
      var centralDirOffset := offset;
      WriteDirectory(ats);
      var centralDirSize := offset - centralDirOffset;
      var zip64EocdOffset := offset;
      var ext := AreaRecord(area);
      Emit(Zip64Eocd(|central|, centralDirSize, centralDirOffset, ext));
      offset := offset + 56 + |ext|;
      Emit(Locator(zip64EocdOffset));
      offset := offset + 20;
      Emit(Eocd(|central|, centralDirSize, centralDirOffset));
      offset := offset + 22;
      assert out == ArchiveBytes(entries);
      if offset > U64_MAX {
        return Refused(DataTooLarge);
      }
      return Done;
    }
  }

  lemma NoDirectory(entries: seq<Entry>)
    requires EntriesOk(entries)
    ensures CentralDirectory(entries[..0]) == []
  {
  }

  lemma DirectoryStep(entries: seq<Entry>, i: nat)
    requires EntriesOk(entries) && i < |entries|
    ensures CentralDirectory(entries[..i + 1]) ==
            CentralDirectory(entries[..i]) + CentralRecord(entries[i], LocalOffset(entries, i), |Area(entries[..i])|)
  {
    hide EntryOk, CentralRecord, Area;
    assert entries[..i + 1][..i] == entries[..i];
  }

  lemma SameRecord(e: Entry, localOffset: nat, at: nat)
    requires EntryOk(e)
    ensures ExtraPayload(CentralOf(e, localOffset).czdiBlob, at) == CzdiPayload(e, at)
  {
    hide Le, CzdiHead, Czdi.TableCrc, Blob;
  }
}
