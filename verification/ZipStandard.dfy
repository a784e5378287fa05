/** ZIP archives as the APPNOTE describes them (sections 4.3 and 4.5.3), field by field: what the readers make of any
    such archive, with or without ZIP64 records, and that the writer's headers and records are of this form. */
module ZipStandard {
  import opened Options
  import opened Octets
  import opened ZipFormat
  import opened ZipParse
  import opened ZipRoundTrip
  import Czdi

  // ---- Signatures and plain fields ---------------------------------------------------------------

  /** Signatures start with the letters PK. */
  function Signature(a: Octet, b: Octet): (s: seq<Octet>)
    ensures |s| == 4
  {
    [0x50, 0x4B, a, b]
  }

  lemma FourOctets(v: nat, a: Octet, b: Octet, c: Octet, d: Octet)
    requires v == a + 256 * b + 65536 * c + 16777216 * d
    ensures Le(v, 4) == [a, b, c, d]
  {
    var v1, v2, v3 := b + 256 * c + 65536 * d, c + 256 * d, d;
    assert v % 256 == a && v / 256 == v1;
    assert v1 % 256 == b && v1 / 256 == v2;
    assert v2 % 256 == c && v2 / 256 == v3;
    assert Le(v3, 1) == [d] + Le(0, 0);
    assert Le(v2, 2) == [c] + Le(v3, 1);
    assert Le(v1, 3) == [b] + Le(v2, 2);
  }

  lemma Signatures()
    ensures Le(LOCAL_FILE_HEADER_SIG, 4) == Signature(3, 4) && Le(CENTRAL_DIR_HEADER_SIG, 4) == Signature(1, 2)
    ensures Le(EOCD_SIG, 4) == Signature(5, 6) && Le(DATA_DESCRIPTOR_SIG, 4) == Signature(7, 8)
    ensures Le(ZIP64_EOCD_SIG, 4) == Signature(6, 6) && Le(ZIP64_EOCD_LOCATOR_SIG, 4) == Signature(6, 7)
  {
    hide Le;
    FourOctets(LOCAL_FILE_HEADER_SIG, 0x50, 0x4B, 3, 4);
    FourOctets(CENTRAL_DIR_HEADER_SIG, 0x50, 0x4B, 1, 2);
    FourOctets(EOCD_SIG, 0x50, 0x4B, 5, 6);
    FourOctets(DATA_DESCRIPTOR_SIG, 0x50, 0x4B, 7, 8);
    FourOctets(ZIP64_EOCD_SIG, 0x50, 0x4B, 6, 6);
    FourOctets(ZIP64_EOCD_LOCATOR_SIG, 0x50, 0x4B, 6, 7);
  }

  /** The number in the octets of a signature. */
  lemma SignatureNum(s: seq<Octet>, p: nat, v: nat, sig: seq<Octet>)
    requires Le(v, 4) == sig && v <= U32_MAX && p + 4 <= |s|
    ensures s[p..p + 4] == sig <==> Num(s, p, 4) == v
  {
    hide Le, FromLe, Pow256;
    Widths();
    FromLeOfLe(v, 4);
    LeOfFromLe(s[p..p + 4]);
  }

  /** A number in an octet string, in a field of its own. */
  predicate Holds(s: seq<Octet>, p: nat, v: nat, n: nat) {
    p + n <= |s| && Num(s, p, n) == v
  }

  lemma FieldHolds(s: seq<Octet>, p: nat, v: nat, n: nat)
    requires v < Pow256(n) && At(s, p, Le(v, n))
    ensures Holds(s, p, v, n)
  {
    hide Le, FromLe, Pow256, At;
    NumAt(s, p, v, n);
  }

  /** Two fields one behind the other. */
  lemma TwoFields(s: seq<Octet>, p: nat, v: nat, w: nat, m: nat, n: nat)
    requires v < Pow256(m) && w < Pow256(n) && At(s, p, Le(v, m) + Le(w, n))
    ensures Holds(s, p, v, m) && Holds(s, p + m, w, n)
  {
    hide Le, FromLe, Pow256, At, Num;
    AtSplit(s, p, Le(v, m), Le(w, n));
    FieldHolds(s, p, v, m);
    FieldHolds(s, p + m, w, n);
  }

  // ---- The end of the central directory (section 4.3.16) -----------------------------------------

  datatype EndRecord = EndRecord(disk: nat, startDisk: nat, onDisk: nat, total: nat, size: nat, offset: nat,
                                 comment: seq<Octet>)
  {
    predicate Ok() {
      && disk <= 0xFFFF && startDisk <= 0xFFFF && onDisk <= 0xFFFF && total <= 0xFFFF
      && size <= 0xFFFF_FFFF && offset <= 0xFFFF_FFFF && |comment| <= 0xFFFF
    }

    function Bytes(): (s: seq<Octet>)
      ensures |s| == 22 + |comment|
    {
      Signature(5, 6) + (Le(disk, 2) + Le(startDisk, 2)) + (Le(onDisk, 2) + Le(total, 2))
      + (Le(size, 4) + Le(offset, 4)) + (Le(|comment|, 2) + comment)
    }
  }

  lemma EndNums(s: seq<Octet>, p: nat, e: EndRecord)
    requires e.Ok() && At(s, p, e.Bytes())
    ensures p + 22 <= |s| && s[p..p + 4] == Signature(5, 6)
    ensures Holds(s, p + 10, e.total, 2) && Holds(s, p + 12, e.size, 4) && Holds(s, p + 16, e.offset, 4)
  {
    hide Le, FromLe, Pow256, At, Holds;
    Widths();
    AtLength(s, p, e.Bytes());
    var a, b, c, d := Signature(5, 6), Le(e.disk, 2) + Le(e.startDisk, 2), Le(e.onDisk, 2) + Le(e.total, 2),
        Le(e.size, 4) + Le(e.offset, 4);
    AtSplit(s, p, a + b + c + d, Le(|e.comment|, 2) + e.comment);
    AtSplit(s, p, a + b + c, d);
    AtSplit(s, p, a + b, c);
    AtSplit(s, p, a, b);
    AtIs(s, p, a);
    TwoFields(s, p + 8, e.onDisk, e.total, 2, 2);
    TwoFields(s, p + 12, e.size, e.offset, 4, 4);
  }

  /** No ZIP64 locator ends right in front. */
  predicate NoLocator(front: seq<Octet>) {
    |front| < 20 || front[|front| - 20..|front| - 16] != Signature(6, 7)
  }

  /** An end record may start here. */
  predicate EndMark(s: seq<Octet>, k: nat) {
    k + 22 <= |s| && s[k..k + 4] == Signature(5, 6)
  }

  /** Nothing in the comment looks like an end record. */
  predicate QuietComment(s: seq<Octet>, p: nat) {
    forall k :: p < k <= |s| ==> !EndMark(s, k)
  }

  lemma {:induction false} LastFound(s: seq<Octet>, k: nat, j: nat)
    requires j <= k && k + 22 <= |s| && EndMark(s, j) && forall i :: j < i <= k ==> !EndMark(s, i)
    ensures LastEocd(s, k) == Some(j)
  {
    hide Le;
    Signatures();
    if j < k {
      assert !EndMark(s, k);
      LastFound(s, k - 1, j);
    }
  }

  lemma NoZip64(s: seq<Octet>, front: seq<Octet>)
    requires NoLocator(front) && front <= s
    ensures ReadZip64End(s, |front|) == Success(None)
  {
    hide Le, FromLe;
    if |front| >= 20 {
      var p := |front| - 20;
      var locator := s[p..p + 20];
      assert locator[0..4] == front[p..p + 4];
      Signatures();
      SignatureNum(locator, 0, ZIP64_EOCD_LOCATOR_SIG, Signature(6, 7));
    }
  }

  /** An archive without ZIP64 records gives exactly the numbers of its end record; one of them being the sentinel, it
      is refused. */
  lemma PlainEndReads(front: seq<Octet>, e: EndRecord)
    requires e.Ok() && NoLocator(front) && QuietComment(front + e.Bytes(), |front|)
    ensures ReadEnd(front + e.Bytes()) ==
            if e.total < 0xFFFF && e.size < 0xFFFF_FFFF && e.offset < 0xFFFF_FFFF
            then Success(End(e.total, e.size, e.offset, None)) else Failure(NoZip64Locator)
  {
    hide Le, FromLe, ReadZip64End, LastEocd, EndRecord.Bytes, Signature, Num;
    var s, p := front + e.Bytes(), |front|;
    assert At(s, p, e.Bytes());
    EndNums(s, p, e);
    Signatures();
    var from := if |s| > SEARCH_LEN then |s| - SEARCH_LEN else 0;
    var tail := s[from..];
    assert tail[p - from..p - from + 4] == s[p..p + 4];
    forall i | p - from < i <= |tail| - 22
      ensures !EndMark(tail, i)
    {
      assert tail[i..i + 4] == s[from + i..from + i + 4];
      assert !EndMark(s, from + i);
    }
    LastFound(tail, |tail| - 22, p - from);
    NoZip64(s, front);
  }

  /** Without a comment nothing can be mistaken for the end record. */
  lemma NoCommentIsQuiet(front: seq<Octet>, e: EndRecord)
    requires e.comment == []
    ensures QuietComment(front + e.Bytes(), |front|)
  {
    hide EndRecord.Bytes;
    assert |front + e.Bytes()| == |front| + 22;
  }

  /** An archive that ends with a record without a comment, and where the octets in front do not end with a locator. */
  lemma CommentlessEndReads(front: seq<Octet>, total: nat, size: nat, offset: nat)
    requires total < 0xFFFF && size < 0xFFFF_FFFF && offset < 0xFFFF_FFFF
    requires |front| >= 20 ==> front[|front| - 20..|front| - 16] != [0x50, 0x4B, 6, 7]
    ensures ReadEnd(front + EndRecord(0, 0, total, total, size, offset, []).Bytes())
            == Success(End(total, size, offset, None))
  {
    hide EndRecord.Bytes, ReadEnd, QuietComment;
    var e := EndRecord(0, 0, total, total, size, offset, []);
    NoCommentIsQuiet(front, e);
    PlainEndReads(front, e);
  }

  lemma {:induction false} NoneFound(s: seq<Octet>, k: nat)
    requires k + 22 <= |s| && forall i :: 0 <= i <= k ==> !EndMark(s, i)
    ensures LastEocd(s, k) == None
  {
    hide Le;
    Signatures();
    assert !EndMark(s, k);
    if k > 0 {
      NoneFound(s, k - 1);
    }
  }

  /** An end record is looked for in the last 65557 octets, the length of one with the longest comment. */
  lemma FarEndIsNotFound(s: seq<Octet>)
    requires |s| >= 22 && forall k :: 0 <= k <= |s| && k + 65557 >= |s| ==> !EndMark(s, k)
    ensures ReadEnd(s) == Failure(NoEocd)
  {
    hide LastEocd, ReadEndAt;
    var from := if |s| > SEARCH_LEN then |s| - SEARCH_LEN else 0;
    var tail := s[from..];
    forall i | 0 <= i <= |tail| - 22
      ensures !EndMark(tail, i)
    {
      assert tail[i..i + 4] == s[from + i..from + i + 4];
      assert !EndMark(s, from + i);
    }
    NoneFound(tail, |tail| - 22);
  }

  // ---- ZIP64 end records (sections 4.3.14 and 4.3.15) --------------------------------------------

  datatype Zip64End = Zip64End(madeBy: nat, needed: nat, disk: nat, startDisk: nat, onDisk: nat, total: nat, size: nat,
                               offset: nat, ext: seq<Octet>)
  {
    predicate Ok() {
      && madeBy <= 0xFFFF && needed <= 0xFFFF && disk <= 0xFFFF_FFFF && startDisk <= 0xFFFF_FFFF && onDisk <= U64_MAX
      && total <= U64_MAX && size <= U64_MAX && offset <= U64_MAX && 44 + |ext| <= U64_MAX
    }

    /** Behind the signature and the size of what follows. */
    function Tail(): (s: seq<Octet>)
      ensures |s| == 44 + |ext|
    {
      (Le(madeBy, 2) + Le(needed, 2) + Le(disk, 4) + Le(startDisk, 4)) + (Le(onDisk, 8) + Le(total, 8))
      + (Le(size, 8) + Le(offset, 8)) + ext
    }

    function Bytes(): (s: seq<Octet>)
      ensures |s| == 56 + |ext|
    {
      Signature(6, 6) + Le(44 + |ext|, 8) + Tail()
    }

    function Reported(): End {
      End(total, size, offset, if ext == [] then None else Some(ext))
    }
  }

  /** Where the ZIP64 end record is. */
  datatype EndLocator = EndLocator(disk: nat, at: nat, disks: nat) {
    function Bytes(): (s: seq<Octet>)
      ensures |s| == 20
    {
      Signature(6, 7) + Le(disk, 4) + Le(at, 8) + Le(disks, 4)
    }
  }

  lemma LocatorHolds(l: EndLocator)
    requires l.at <= U64_MAX
    ensures l.Bytes()[0..4] == Signature(6, 7) && Holds(l.Bytes(), 8, l.at, 8)
  {
    hide Le, FromLe, Pow256, At, Holds;
    Widths();
    var f := l.Bytes();
    AtWhole(f);
    AtSplit(f, 0, Signature(6, 7) + Le(l.disk, 4) + Le(l.at, 8), Le(l.disks, 4));
    AtSplit(f, 0, Signature(6, 7) + Le(l.disk, 4), Le(l.at, 8));
    FieldHolds(f, 8, l.at, 8);
  }

  lemma TailHolds(z: Zip64End)
    requires z.Ok()
    ensures var t := z.Tail();
            && Holds(t, 20, z.total, 8) && Holds(t, 28, z.size, 8) && Holds(t, 36, z.offset, 8) && t[44..] == z.ext
  {
    hide Le, FromLe, Pow256, At, Holds;
    Widths();
    var t := z.Tail();
    var a := Le(z.madeBy, 2) + Le(z.needed, 2) + Le(z.disk, 4) + Le(z.startDisk, 4);
    var b, c := Le(z.onDisk, 8) + Le(z.total, 8), Le(z.size, 8) + Le(z.offset, 8);
    AtWhole(t);
    AtSplit(t, 0, a + b + c, z.ext);
    AtSplit(t, 0, a + b, c);
    AtSplit(t, 0, a, b);
    TwoFields(t, 12, z.onDisk, z.total, 8, 8);
    TwoFields(t, 28, z.size, z.offset, 8, 8);
  }

  lemma PrefixHolds(z: Zip64End)
    requires z.Ok()
    ensures var f := Signature(6, 6) + Le(44 + |z.ext|, 8);
            f[0..4] == Signature(6, 6) && Holds(f, 4, 44 + |z.ext|, 8)
  {
    hide Le, FromLe, Pow256, At, Holds;
    Widths();
    var f := Signature(6, 6) + Le(44 + |z.ext|, 8);
    AtWhole(f);
    AtSplit(f, 0, Signature(6, 6), Le(44 + |z.ext|, 8));
    FieldHolds(f, 4, 44 + |z.ext|, 8);
  }

  /** Behind a locator, the numbers are those of the ZIP64 record that it points to: the total number of entries, the
      size and the offset of the directory, and the extensible data. */
  lemma AnyZip64EndReads(s: seq<Octet>, p: nat, l: EndLocator, z: Zip64End)
    requires p >= 20 && z.Ok() && l.at <= U64_MAX && At(s, p - 20, l.Bytes()) && At(s, l.at, z.Bytes())
    ensures ReadZip64End(s, p) == Success(Some(z.Reported()))
  {
    hide Le, At, Num, Zip64End.Tail, EndLocator.Bytes, Slice, Signature;
    SliceAt(s, p - 20, l.Bytes());
    LocatorHolds(l);
    Signatures();
    SignatureNum(l.Bytes(), 0, ZIP64_EOCD_LOCATOR_SIG, Signature(6, 7));
    var prefix := Signature(6, 6) + Le(44 + |z.ext|, 8);
    AtSplit(s, l.at, prefix, z.Tail());
    SliceAt(s, l.at, prefix);
    SliceAt(s, l.at + 12, z.Tail());
    PrefixHolds(z);
    SignatureNum(prefix, 0, ZIP64_EOCD_SIG, Signature(6, 6));
    TailHolds(z);
  }

  // ---- Directory records (section 4.3.12) --------------------------------------------------------

  /** The sizes and the offset are the entry's own numbers; a long one stands in the ZIP64 field, and the record holds
      the sentinel instead. */
  datatype DirectoryEntry = DirectoryEntry(
    madeBy: nat, needed: nat, flags: nat, method_: nat, time: nat, date: nat, crc: nat,
    compressed: nat, uncompressed: nat, offset: nat, longC: bool, longU: bool, longO: bool,
    name: seq<Octet>, extra: seq<Field>, comment: seq<Octet>, disk: nat, internal: nat, external: nat)
  {
    predicate Ok() {
      && madeBy <= 0xFFFF && needed <= 0xFFFF && flags <= 0xFFFF && method_ <= 0xFFFF && time <= 0xFFFF
      && date <= 0xFFFF && crc <= 0xFFFF_FFFF && disk <= 0xFFFF && internal <= 0xFFFF && external <= 0xFFFF_FFFF
      && |name| <= 0xFFFF && |FieldBytes(extra)| <= 0xFFFF && |comment| <= 0xFFFF && FieldsOk(extra)
      && NumbersOk()
    }

    predicate NumbersOk() {
      && compressed <= (if longC then 0xFFFF_FFFF_FFFF_FFFF else 0xFFFF_FFFE)
      && uncompressed <= (if longU then 0xFFFF_FFFF_FFFF_FFFF else 0xFFFF_FFFE)
      && offset <= (if longO then 0xFFFF_FFFF_FFFF_FFFF else 0xFFFF_FFFE)
      && (longC || longU || longO ==>
            && FirstWith(extra, 1).Some?
            && NumberBytes(longU, uncompressed) + NumberBytes(longC, compressed) + NumberBytes(longO, offset)
               <= FirstWith(extra, 1).value)
    }

    function Fixed(): (s: seq<Octet>)
      ensures |s| == 46
    {
      Signature(1, 2) + (Le(madeBy, 2) + Le(needed, 2)) + (Le(flags, 2) + Le(method_, 2)) + (Le(time, 2) + Le(date, 2))
      + Le(crc, 4) + (Le(InRecord(compressed, longC), 4) + Le(InRecord(uncompressed, longU), 4))
      + (Le(|name|, 2) + Le(|FieldBytes(extra)|, 2)) + (Le(|comment|, 2) + Le(disk, 2))
      + (Le(internal, 2) + Le(external, 4)) + Le(InRecord(offset, longO), 4)
    }

    function Bytes(): (s: seq<Octet>)
      ensures |s| == 46 + |name| + |FieldBytes(extra)| + |comment|
    {
      Fixed() + name + FieldBytes(extra) + comment
    }

    /** What a reader reports for it. */
    function Reported(area: Option<seq<Octet>>): ReadEntry {
      ReadEntry(name, flags, method_, crc, compressed, uncompressed, offset, IndexOf(FieldBytes(extra), area))
    }
  }

  function InRecord(v: nat, long: bool): nat {
    if long then 0xFFFF_FFFF else v
  }

  lemma FirstTwelve(f: seq<Octet>, r: DirectoryEntry)
    requires r.Ok()
    requires At(f, 0, Signature(1, 2) + (Le(r.madeBy, 2) + Le(r.needed, 2)) + (Le(r.flags, 2) + Le(r.method_, 2)))
    ensures |f| >= 12 && f[0..4] == Signature(1, 2) && Holds(f, 8, r.flags, 2) && Holds(f, 10, r.method_, 2)
  {
    hide Le, FromLe, Pow256, At, Holds, FieldBytes, FieldsOk, DirectoryEntry.NumbersOk;
    Widths();
    var a, b, c := Signature(1, 2), Le(r.madeBy, 2) + Le(r.needed, 2), Le(r.flags, 2) + Le(r.method_, 2);
    AtLength(f, 0, a + b + c);
    AtSplit(f, 0, a + b, c);
    AtSplit(f, 0, a, b);
    AtIs(f, 0, a);
    TwoFields(f, 8, r.flags, r.method_, 2, 2);
  }

  lemma Fits32(v: nat, long: bool)
    requires long || v <= 0xFFFF_FFFE
    ensures InRecord(v, long) <= U32_MAX && (InRecord(v, long) == U32_MAX <==> long)
  {
  }

  /** The numbers of a record, where the reader looks for them. */
  lemma FixedHolds(r: DirectoryEntry)
    requires r.Ok()
    ensures var f := r.Fixed();
            && f[0..4] == Signature(1, 2) && Holds(f, 8, r.flags, 2) && Holds(f, 10, r.method_, 2)
            && Holds(f, 16, r.crc, 4) && Holds(f, 20, InRecord(r.compressed, r.longC), 4)
            && Holds(f, 24, InRecord(r.uncompressed, r.longU), 4) && Holds(f, 28, |r.name|, 2)
            && Holds(f, 30, |FieldBytes(r.extra)|, 2) && Holds(f, 32, |r.comment|, 2)
            && Holds(f, 42, InRecord(r.offset, r.longO), 4)
  {
    hide Le, FromLe, Pow256, At, Holds, FieldBytes, FieldsOk, InRecord, NumberBytes, FirstWith;
    Widths();
    Fits32(r.compressed, r.longC);
    Fits32(r.uncompressed, r.longU);
    Fits32(r.offset, r.longO);
    hide DirectoryEntry.NumbersOk;
    var f := r.Fixed();
    AtWhole(f);
    var a := Signature(1, 2) + (Le(r.madeBy, 2) + Le(r.needed, 2)) + (Le(r.flags, 2) + Le(r.method_, 2));
    var b, c := Le(r.time, 2) + Le(r.date, 2), Le(r.crc, 4);
    var d := Le(InRecord(r.compressed, r.longC), 4) + Le(InRecord(r.uncompressed, r.longU), 4);
    var e := Le(|r.name|, 2) + Le(|FieldBytes(r.extra)|, 2);
    var g, h := Le(|r.comment|, 2) + Le(r.disk, 2), Le(r.internal, 2) + Le(r.external, 4);
    AtSplit(f, 0, a + b + c + d + e + g + h, Le(InRecord(r.offset, r.longO), 4));
    AtSplit(f, 0, a + b + c + d + e + g, h);
    AtSplit(f, 0, a + b + c + d + e, g);
    AtSplit(f, 0, a + b + c + d, e);
    AtSplit(f, 0, a + b + c, d);
    AtSplit(f, 0, a + b, c);
    AtSplit(f, 0, a, b);
    FirstTwelve(f, r);
    FieldHolds(f, 16, r.crc, 4);
    TwoFields(f, 20, InRecord(r.compressed, r.longC), InRecord(r.uncompressed, r.longU), 4, 4);
    TwoFields(f, 28, |r.name|, |FieldBytes(r.extra)|, 2, 2);
    TwoFields(f, 32, |r.comment|, r.disk, 2, 2);
    FieldHolds(f, 42, InRecord(r.offset, r.longO), 4);
  }

  lemma TagIsOne()
    ensures ZIP64_EXTRA_FIELD_TAG == 1
  {
  }

  /** The long numbers come from the ZIP64 field. */
  lemma LongNumbers(r: DirectoryEntry)
    requires r.Ok()
    ensures var z := Zip64FieldOf(FieldBytes(r.extra), r.longU, r.longC, r.longO);
            && z.Success? && SizeOf(InRecord(r.uncompressed, r.longU), FieldOrEmpty(z.value).uncompressed)
                             == Success(r.uncompressed)
            && SizeOf(InRecord(r.compressed, r.longC), FieldOrEmpty(z.value).compressed) == Success(r.compressed)
            && SizeOf(InRecord(r.offset, r.longO), FieldOrEmpty(z.value).offset) == Success(r.offset)
  {
    hide Le, FromLe, Pow256, At, Num, FieldBytes, FirstWith, FieldFrom, NumberBytes, Zip64Numbers, FieldsOk;
    var extra := FieldBytes(r.extra);
    AtWhole(extra);
    TagIsOne();
    FieldFound(extra, 0, r.extra, 1);
    var found := FirstWith(r.extra, 1);
    if found.Some? {
      var x := NumberBytes(r.longU, r.uncompressed) + NumberBytes(r.longC, r.compressed)
          + NumberBytes(r.longO, r.offset);
      if r.longC || r.longU || r.longO {
        var rest := found.value[|x|..];
        assert found.value == x + rest;
        NumbersRead(r.longU, r.longC, r.longO, r.uncompressed, r.compressed, r.offset, rest);
      } else {
        NothingAsked(found.value);
      }
    }
  }

  lemma NothingAsked(d: seq<Octet>)
    ensures Zip64Numbers(d, false, false, false) == Success(Zip64Field(None, None, None))
  {
  }

  lemma VariableOf(r: DirectoryEntry, area: Option<seq<Octet>>)
    requires r.Ok()
    ensures ReadVariable(r.Fixed(), r.name, FieldBytes(r.extra), area) == Success(r.Reported(area))
  {
    hide FieldBytes, IndexOf, DirectoryEntry.Fixed, Zip64FieldOf, SizeOf, InRecord, FieldOrEmpty, Num, NumberBytes;
    hide FirstWith, FieldsOk;
    FixedHolds(r);
    LongNumbers(r);
    Fits32(r.compressed, r.longC);
    Fits32(r.uncompressed, r.longU);
    Fits32(r.offset, r.longO);
  }

  /** Any record reads back: stored and deflated entries are reported with their own numbers and everything behind the
      record is skipped; other methods and encrypted entries are refused. */
  lemma AnyRecordReads(s: seq<Octet>, p: nat, r: DirectoryEntry, area: Option<seq<Octet>>)
    requires r.Ok() && At(s, p, r.Bytes())
    ensures ReadRecord(s, p, area) ==
            if r.method_ != 8 && r.method_ != 0 then Failure(UnsupportedMethod)
            else if r.flags % 2 == 1 then Failure(Encrypted)
            else Success((r.Reported(area), p + |r.Bytes()|))
  {
    hide FieldBytes, IndexOf, DirectoryEntry.Fixed, DirectoryEntry.Ok, ReadVariable, Num, At, Slice, Signature;
    hide DirectoryEntry.Reported, Le;
    var f, extra := r.Fixed(), FieldBytes(r.extra);
    AtSplit(s, p, f + r.name + extra, r.comment);
    AtSplit(s, p, f + r.name, extra);
    AtSplit(s, p, f, r.name);
    SliceAt(s, p, f);
    SliceAt(s, p + 46, r.name);
    SliceAt(s, p + 46 + |r.name|, extra);
    FixedHolds(r);
    Signatures();
    SignatureNum(f, 0, CENTRAL_DIR_HEADER_SIG, Signature(1, 2));
    VariableOf(r, area);
  }

  /** An entry without a field of the chunk index has no index. */
  lemma NoIndexField(r: DirectoryEntry, area: Option<seq<Octet>>)
    requires r.Ok() && FirstWith(r.extra, 0x435A).None?
    ensures r.Reported(area).index == None
  {
    hide FieldBytes, FieldFrom, FirstWith;
    AtWhole(FieldBytes(r.extra));
    FieldFound(FieldBytes(r.extra), 0, r.extra, 0x435A);
  }

  // ---- Ordinary archives -------------------------------------------------------------------------

  predicate Readable(records: seq<DirectoryEntry>) {
    forall i :: 0 <= i < |records| ==>
      records[i].Ok() && (records[i].method_ == 8 || records[i].method_ == 0) && records[i].flags % 2 == 0
  }

  function Directory(records: seq<DirectoryEntry>): seq<Octet> {
    if records == [] then [] else records[0].Bytes() + Directory(records[1..])
  }

  function AllReported(records: seq<DirectoryEntry>, area: Option<seq<Octet>>): (r: seq<ReadEntry>)
    ensures |r| == |records|
  {
    seq(|records|, i requires 0 <= i < |records| => records[i].Reported(area))
  }

  lemma OneMoreRead(s: seq<Octet>, p: nat, count: nat, area: Option<seq<Octet>>, before: seq<ReadEntry>, e: ReadEntry,
      q: nat)
    requires |before| < count && ReadRecord(s, p, area) == Success((e, q))
    ensures ReadRecords(s, p, count, area, before) == ReadRecords(s, q, count, area, before + [e])
  {
    hide ReadRecord;
  }

  lemma {:induction false} AnyDirectoryReads(s: seq<Octet>, p: nat, records: seq<DirectoryEntry>,
      area: Option<seq<Octet>>, before: seq<ReadEntry>)
    requires Readable(records) && At(s, p, Directory(records))
    ensures ReadRecords(s, p, |before| + |records|, area, before) == Success(before + AllReported(records, area))
    decreases |records|
  {
    hide DirectoryEntry.Ok, DirectoryEntry.Bytes, DirectoryEntry.Reported, ReadRecord, At;
    if records == [] {
      assert before + AllReported(records, area) == before;
    } else {
      AtSplit(s, p, records[0].Bytes(), Directory(records[1..]));
      AnyRecordReads(s, p, records[0], area);
      var next := before + [records[0].Reported(area)];
      OneMoreRead(s, p, |before| + |records|, area, before, records[0].Reported(area), p + |records[0].Bytes()|);
      hide ReadRecords;
      AnyDirectoryReads(s, p + |records[0].Bytes()|, records[1..], area, next);
      assert next + AllReported(records[1..], area) == before + AllReported(records, area);
    }
  }

  /** An ordinary archive, without ZIP64 end records: the reader reports all of its entries with their own numbers. */
  lemma OrdinaryArchiveReads(front: seq<Octet>, records: seq<DirectoryEntry>, e: EndRecord)
    requires Readable(records) && e.Ok() && e.total == |records| < 0xFFFF
    requires e.offset == |front| < 0xFFFF_FFFF && e.size == |Directory(records)| < 0xFFFF_FFFF
    requires NoLocator(front + Directory(records))
    requires QuietComment(front + Directory(records) + e.Bytes(), |front + Directory(records)|)
    ensures ReadArchive(front + Directory(records) + e.Bytes()) == Success(AllReported(records, None))
  {
    hide DirectoryEntry.Ok, DirectoryEntry.Bytes, DirectoryEntry.Reported, ReadRecord, ReadEnd, EndRecord.Bytes;
    hide Directory, Readable;
    var s := front + Directory(records) + e.Bytes();
    PlainEndReads(front + Directory(records), e);
    assert s[|front|..|front| + |Directory(records)|] == Directory(records);
    AnyDirectoryReads(s, |front|, records, None, []);
    assert [] + AllReported(records, None) == AllReported(records, None);
  }

  // ---- Local headers (section 4.3.7) -------------------------------------------------------------

  datatype LocalHead = LocalHead(
    needed: nat, flags: nat, method_: nat, time: nat, date: nat, crc: nat, compressed: nat, uncompressed: nat,
    name: seq<Octet>, extra: seq<Octet>)
  {
    predicate Ok() {
      |name| <= 0xFFFF && |extra| <= 0xFFFF
    }

    function Fixed(): (s: seq<Octet>)
      ensures |s| == 30
    {
      Signature(3, 4) + (Le(needed, 2) + Le(flags, 2) + Le(method_, 2) + Le(time, 2) + Le(date, 2) + Le(crc, 4)
      + Le(compressed, 4) + Le(uncompressed, 4)) + (Le(|name|, 2) + Le(|extra|, 2))
    }

    function Bytes(): (s: seq<Octet>)
      ensures |s| == 30 + |name| + |extra|
    {
      Fixed() + name + extra
    }
  }

  lemma LocalHolds(l: LocalHead)
    requires l.Ok()
    ensures var f := l.Fixed();
            && Holds(f, 0, LOCAL_FILE_HEADER_SIG, 4) && Holds(f, 26, |l.name|, 2) && Holds(f, 28, |l.extra|, 2)
  {
    hide Le, FromLe, Pow256, At;
    Widths();
    var f := l.Fixed();
    var middle := Le(l.needed, 2) + Le(l.flags, 2) + Le(l.method_, 2) + Le(l.time, 2) + Le(l.date, 2) + Le(l.crc, 4)
        + Le(l.compressed, 4) + Le(l.uncompressed, 4);
    AtWhole(f);
    AtSplit(f, 0, Signature(3, 4) + middle, Le(|l.name|, 2) + Le(|l.extra|, 2));
    AtSplit(f, 0, Signature(3, 4), middle);
    AtIs(f, 0, Signature(3, 4));
    Signatures();
    SignatureNum(f, 0, LOCAL_FILE_HEADER_SIG, Signature(3, 4));
    TwoFields(f, 26, |l.name|, |l.extra|, 2, 2);
  }

  /** The seek lands behind the name and the extra fields of any local header, and the length is the directory's. */
  lemma AnySeek(s: seq<Octet>, e: ReadEntry, l: LocalHead)
    requires l.Ok() && At(s, e.localHeaderOffset, l.Bytes()) && e.compressedSize != 0xFFFF_FFFF
    ensures EntryData(s, e) == Success((e.localHeaderOffset + |l.Bytes()|, e.compressedSize))
  {
    hide LocalHead.Fixed, At, Num, Slice, Zip64FieldOf;
    var p := e.localHeaderOffset;
    HeadParts(s, p, l);
    LocalHolds(l);
  }

  lemma HeadParts(s: seq<Octet>, p: nat, l: LocalHead)
    requires At(s, p, l.Bytes())
    ensures Slice(s, p, 30) == Success(l.Fixed()) && Slice(s, p + 30 + |l.name|, |l.extra|) == Success(l.extra)
  {
    hide LocalHead.Fixed, At, Slice;
    AtSplit(s, p, l.Fixed() + l.name, l.extra);
    AtSplit(s, p, l.Fixed(), l.name);
    SliceAt(s, p, l.Fixed());
    SliceAt(s, p + 30 + |l.name|, l.extra);
  }

  /** An entry of 4294967295 compressed octets, the sentinel itself: section 4.5.3 has its local ZIP64 field hold the
      uncompressed size first and then the compressed one. The seek takes the first number, so the length it reports is
      right exactly when the two sizes are equal. */
  lemma SentinelSeek(s: seq<Octet>, e: ReadEntry, l: LocalHead, fields: seq<Field>, uncompressed: nat, compressed: nat)
    requires l.Ok() && At(s, e.localHeaderOffset, l.Bytes()) && e.compressedSize == 0xFFFF_FFFF
    requires FieldsOk(fields) && l.extra == FieldBytes(fields)
    requires FirstWith(fields, 1) == Some(Le(uncompressed, 8) + Le(compressed, 8))
    requires uncompressed <= 0xFFFF_FFFF_FFFF_FFFF && compressed <= 0xFFFF_FFFF_FFFF_FFFF
    ensures EntryData(s, e) == Success((e.localHeaderOffset + |l.Bytes()|, uncompressed))
    ensures EntryData(s, e) == Success((e.localHeaderOffset + |l.Bytes()|, compressed)) <==> uncompressed == compressed
  {
    hide LocalHead.Fixed, At, Num, Slice, Zip64Numbers, FieldBytes, FirstWith, FieldsOk, FieldFrom, Le;
    HeadParts(s, e.localHeaderOffset, l);
    LocalHolds(l);
    AtWhole(l.extra);
    TagIsOne();
    FieldFound(l.extra, 0, fields, 1);
    var d := Le(uncompressed, 8) + Le(compressed, 8);
    assert d == [] + Le(uncompressed, 8) + [] + Le(compressed, 8);
    NumbersRead(false, true, false, 0, uncompressed, 0, Le(compressed, 8));
  }

  // ---- What the writer writes is of this form ----------------------------------------------------

  lemma {:induction false} ZeroOctets(m: nat, n: nat)
    ensures Le(0, m + n) == Le(0, m) + Le(0, n)
    decreases m
  {
    if m > 0 {
      ZeroOctets(m - 1, n);
    }
  }

  /** The local header: deflate with a data descriptor and a UTF-8 name, no sizes yet and no extra fields. */
  lemma LocalHeaderForm(e: Entry)
    ensures LocalHeader(e) == LocalHead(45, 0x0808, 8, 0, 0, 0, 0, 0, e.name, []).Bytes()
  {
    hide Le;
    Signatures();
    ZeroOctets(2, 2);
    ZeroOctets(4, 4);
    ZeroOctets(8, 4);
    ZeroOctets(12, 4);
    var a, b, c, z := Le(45, 2), Le(0x0808, 2), Le(8, 2), Le(0, 2);
    assert Le(0, 16) == z + z + Le(0, 4) + Le(0, 4) + Le(0, 4);
    assert Le(45, 2) + Le(0x0808, 2) + Le(8, 2) + Le(0, 16)
        == a + b + c + z + z + Le(0, 4) + Le(0, 4) + Le(0, 4);
  }

  /** The fields of a written directory record: all three numbers are in the ZIP64 field. */
  function WrittenRecord(e: Entry, localOffset: nat, at: nat): DirectoryEntry
    requires EntryOk(e)
  {
    DirectoryEntry(45, 45, 0x0808, 8, 0, 0, e.crc, |e.payload|, e.uncompressedSize, localOffset, true, true, true,
                   e.name,
                   [Field(1, Le(e.uncompressedSize, 8) + Le(|e.payload|, 8) + Le(localOffset, 8)),
                    Field(0x435A, CzdiPayload(e, at))],
                   [], 0, 0, 0)
  }

  lemma WrittenExtra(e: Entry, localOffset: nat, at: nat)
    requires EntryOk(e)
    ensures FieldBytes(WrittenRecord(e, localOffset, at).extra)
            == Zip64Extra(e.uncompressedSize, |e.payload|, localOffset) + CzdiExtra(e, at)
  {
    hide Le, EntryOk, CzdiPayload;
    var fields := WrittenRecord(e, localOffset, at).extra;
    assert fields[1..] == [Field(0x435A, CzdiPayload(e, at))] && fields[1..][1..] == [];
    assert FieldBytes(fields[1..]) == CzdiExtra(e, at) + FieldBytes([]);
  }

  /** A written directory record is of the standard form. */
  lemma DirectoryRecordForm(e: Entry, localOffset: nat, at: nat)
    requires EntryOk(e) && localOffset <= U64_MAX
    ensures var r := WrittenRecord(e, localOffset, at);
            r.Ok() && ZipFormat.CentralRecord(e, localOffset, at) == r.Bytes()
  {
    hide Le, EntryOk, CzdiPayload, FieldBytes, Zip64Extra, CzdiExtra;
    NameFits(e);
    PayloadFits(e, at);
    WrittenExtra(e, localOffset, at);
    var r := WrittenRecord(e, localOffset, at);
    Signatures();
    ZeroOctets(2, 2);
    ZeroOctets(4, 4);
    ZeroOctets(2, 6);
    ZeroOctets(2, 4);
    assert r.Fixed() == CentralFixed(e.crc, |e.name|, |FieldBytes(r.extra)|);
    assert FirstWith(r.extra, 1) == Some(r.extra[0].payload);
  }

  /** The written end record is of the standard form, with sentinels for numbers that are too large. */
  lemma EndRecordForm(count: nat, size: nat, offset: nat)
    ensures var c, z, o := if count < 0xFFFF then count else 0xFFFF, if size < 0xFFFF_FFFF then size else 0xFFFF_FFFF,
                if offset < 0xFFFF_FFFF then offset else 0xFFFF_FFFF;
            EndRecord(0, 0, c, c, z, o, []).Ok() && Eocd(count, size, offset) == EndRecord(0, 0, c, c, z, o, []).Bytes()
  {
    hide Le;
    Signatures();
    ZeroOctets(2, 2);
  }

  /** The written ZIP64 end records are of the standard form. */
  lemma Zip64EndForm(count: nat, size: nat, offset: nat, ext: seq<Octet>, at: nat)
    ensures Zip64Eocd(count, size, offset, ext) == Zip64End(45, 45, 0, 0, count, count, size, offset, ext).Bytes()
    ensures Locator(at) == EndLocator(0, at, 1).Bytes()
  {
    hide Le;
    Signatures();
    ZeroOctets(4, 4);
    var a, z, c := Le(45, 2), Le(0, 4), Le(count, 8);
    assert a + a + Le(0, 8) + c + (c + Le(size, 8) + Le(offset, 8)) + ext
        == (a + a + z + z) + (c + c) + (Le(size, 8) + Le(offset, 8)) + ext;
  }

  /** The data descriptor behind a written payload (section 4.3.9) has the checksum and both sizes, eight octets
      each. */
  lemma DescriptorReads(s: seq<Octet>, p: nat, e: Entry)
    requires EntryOk(e) && At(s, p, LocalPart(e))
    ensures var q := p + 30 + |e.name| + |e.payload|;
            && q + 24 <= |s| && s[q..q + 4] == Signature(7, 8) && Holds(s, q + 4, e.crc, 4)
            && Holds(s, q + 8, |e.payload|, 8) && Holds(s, q + 16, e.uncompressedSize, 8)
  {
    hide Le, FromLe, Pow256, At, EntryOk, LocalHeader, Holds;
    NameFits(e);
    Widths();
    var q := p + 30 + |e.name| + |e.payload|;
    AtSplit(s, p, LocalHeader(e) + e.payload, DataDescriptor(e));
    AtLength(s, q, DataDescriptor(e));
    var a, b, c, d := Le(DATA_DESCRIPTOR_SIG, 4), Le(e.crc, 4), Le(|e.payload|, 8), Le(e.uncompressedSize, 8);
    AtSplit(s, q, a + b + c, d);
    AtSplit(s, q, a + b, c);
    AtSplit(s, q, a, b);
    Signatures();
    AtIs(s, q, a);
    FieldHolds(s, q + 4, e.crc, 4);
    FieldHolds(s, q + 8, |e.payload|, 8);
    FieldHolds(s, q + 16, e.uncompressedSize, 8);
  }

  // ---- The chunk index extension, written out ----------------------------------------------------

  /** The shared area starts with the letters CZDG, its version and its length. */
  lemma AreaRecordForm(area: seq<Octet>)
    requires area != []
    ensures AreaRecord(area) == [0x43, 0x5A, 0x44, 0x47, 1, 0, 0, 0] + Le(|area|, 4) + area
  {
    hide Le;
    TwoZeros();
    AreaHeadWritten();
  }

  lemma AreaHeadWritten()
    ensures CZDI_EOCD64_MAGIC + ([1, 0] + [0, 0]) == [0x43, 0x5A, 0x44, 0x47, 1, 0, 0, 0]
  {
  }

  lemma TwoZeros()
    ensures Le(0, 2) == [0, 0]
  {
    assert Le(0, 1) == [0] + Le(0, 0);
  }

  /** The extra field has the tag 0x435A. A blob stands in it with its length and its checksum as long as both extra
      fields of the entry have room for 65535 octets; otherwise its place, its length and its checksum stand there. */
  lemma CzdiExtraForm(e: Entry, at: nat)
    requires EntryOk(e)
    ensures e.index.None? ==> CzdiExtra(e, at) == Le(0x435A, 2) + Le(4, 2) + [1, 2, 0, 0]
    ensures e.index.Some? ==>
              var blob := Blob(e.index.value);
              var fields := Le(|blob|, 4) + Le(Czdi.TableCrc(blob), 4);
              if 28 + 4 + 12 + |blob| <= 0xFFFF
              then CzdiExtra(e, at) == Le(0x435A, 2) + Le(12 + |blob|, 2) + ([1, 0, 0, 0] + fields + blob)
              else CzdiExtra(e, at) == Le(0x435A, 2) + Le(16, 2) + ([1, 1, 0, 0] + (Le(at, 4) + fields))
  {
    hide Le, Blob, Czdi.TableCrc, Czdi.Typed, Czdi.Encodable;
    TwoZeros();
    assert [1, 2] + [0, 0] == [1, 2, 0, 0] && [1, 0] + [0, 0] == [1, 0, 0, 0] && [1, 1] + [0, 0] == [1, 1, 0, 0];
    if e.index.Some? {
      var blob := Blob(e.index.value);
      var a, b, c := Le(at, 4), Le(|blob|, 4), Le(Czdi.TableCrc(blob), 4);
      assert a + b + c == a + (b + c);
    }
  }
}
