/** The CZAR directory archive, read octet by octet: what a string of octets means, however it is cut. */
module ArchiveFormat {
  import opened Octets

  datatype Error = BadMagic | BadVersion | BadTag | BadPath | TrailingBytes | MissingEnd | TruncatedFile | Truncated

  datatype Entry = Dir(path: seq<Octet>) | File(path: seq<Octet>, len: nat, content: seq<Octet>)

  const MAGIC: seq<Octet> := [67, 90, 65, 82]
  const VERSION: Octet := 1
  const RECORD_END: Octet := 0
  const RECORD_FILE: Octet := 1
  const RECORD_DIR: Octet := 2

  /** What the reader is in the middle of; `got` are the octets of a field that is not complete, or whatever
      follows the end. */
  datatype Phase =
    | Header
    | Tag
    | PathLen(tag: Octet)
    | Path(tag: Octet, len: nat)
    | FileLen(path: seq<Octet>)
    | Data(remaining: nat)
    | Finished
    | Failed(error: Error)

  datatype Reader = Reader(phase: Phase, got: seq<Octet>, out: seq<Entry>)

  /** Which names the reader accepts as paths is left open. */
  type Accepts = seq<Octet> -> bool

  /** The octets a field needs. */
  function Need(phase: Phase): nat {
    match phase
    case Header => 5
    case Tag => 1
    case PathLen(_) => 4
    case Path(_, len) => len
    case FileLen(_) => 8
    case _ => 0
  }

  predicate IsField(phase: Phase) {
    !phase.Data? && !phase.Finished? && !phase.Failed?
  }

  /** What a complete field leads to. */
  function Complete(accepts: Accepts, phase: Phase, got: seq<Octet>, out: seq<Entry>): Reader
    requires IsField(phase) && |got| == Need(phase)
  {
    match phase
    case Header =>
      if got[..4] != MAGIC then Reader(Failed(BadMagic), [], out)
      else if got[4] != VERSION then Reader(Failed(BadVersion), [], out)
      else Reader(Tag, [], out)
    case Tag =>
      if got[0] == RECORD_END then Reader(Finished, [], out)
      else if got[0] == RECORD_FILE || got[0] == RECORD_DIR then Reader(PathLen(got[0]), [], out)
      else Reader(Failed(BadTag), [], out)
    case PathLen(tag) => Reader(Path(tag, FromLe(got)), [], out)
    case Path(tag, _) =>
      if !accepts(got) then Reader(Failed(BadPath), [], out)
      else if tag == RECORD_DIR then Reader(Tag, [], out + [Dir(got)])
      else Reader(FileLen(got), [], out)
    case FileLen(path) => Reader(Data(FromLe(got)), [], out + [File(path, FromLe(got), [])])
  }

  /** Empty paths and empty files need no further octet. */
  function Settle(accepts: Accepts, r: Reader): Reader {
    match r.phase
    case Path(_, len) => if len == 0 then Complete(accepts, r.phase, [], r.out) else r
    case Data(remaining) => if remaining == 0 then r.(phase := Tag) else r
    case _ => r
  }

  /** File data goes to the file begun last. */
  function AddData(out: seq<Entry>, data: seq<Octet>): (r: seq<Entry>)
    ensures |r| == |out|
  {
    if out == [] || !out[|out| - 1].File? then out
    else out[|out| - 1 := out[|out| - 1].(content := out[|out| - 1].content + data)]
  }

  function Feed(accepts: Accepts, r: Reader, x: Octet): Reader {
    match r.phase
    case Failed(_) => r
    case Finished => r.(got := r.got + [x])
    case Data(remaining) =>
      if remaining == 0 then r
      else Settle(accepts, Reader(Data(remaining - 1), [], AddData(r.out, [x])))
    case _ =>
      if |r.got| + 1 == Need(r.phase) then Settle(accepts, Complete(accepts, r.phase, r.got + [x], r.out))
      else r.(got := r.got + [x])
  }

  function FeedAll(accepts: Accepts, r: Reader, s: seq<Octet>): Reader
    decreases |s|
  {
    if s == [] then r else FeedAll(accepts, Feed(accepts, r, s[0]), s[1..])
  }

  function Start(): Reader {
    Reader(Header, [], [])
  }

  /** Pieces put together. */
  function Flatten(pieces: seq<seq<Octet>>): seq<Octet> {
    if pieces == [] then [] else Flatten(pieces[..|pieces| - 1]) + pieces[|pieces| - 1]
  }

  // ---- Cutting does not matter -------------------------------------------------------------------

  lemma {:induction false} FeedInPieces(accepts: Accepts, r: Reader, a: seq<Octet>, b: seq<Octet>)
    ensures FeedAll(accepts, r, a + b) == FeedAll(accepts, FeedAll(accepts, r, a), b)
    decreases |a|
  {
    hide Feed;
    if a == [] {
      assert a + b == b;
    } else {
      assert (a + b)[0] == a[0] && (a + b)[1..] == a[1..] + b;
      FeedInPieces(accepts, Feed(accepts, r, a[0]), a[1..], b);
    }
  }

  lemma {:induction false} StaysFailed(accepts: Accepts, r: Reader, s: seq<Octet>)
    requires r.phase.Failed?
    ensures FeedAll(accepts, r, s) == r
    decreases |s|
  {
    if s != [] {
      StaysFailed(accepts, r, s[1..]);
    }
  }

  lemma {:induction false} StaysFinished(accepts: Accepts, r: Reader, s: seq<Octet>)
    requires r.phase.Finished?
    ensures FeedAll(accepts, r, s) == r.(got := r.got + s)
    decreases |s|
  {
    if s == [] {
      assert r.got + s == r.got;
    } else {
      StaysFinished(accepts, Feed(accepts, r, s[0]), s[1..]);
      assert r.got + [s[0]] + s[1..] == r.got + s;
    }
  }

  /** A field that is not complete yet only gathers. */
  lemma {:induction false} Gather(accepts: Accepts, r: Reader, s: seq<Octet>)
    requires IsField(r.phase) && |r.got| + |s| < Need(r.phase)
    ensures FeedAll(accepts, r, s) == r.(got := r.got + s)
    decreases |s|
  {
    if s == [] {
      assert r.got + s == r.got;
    } else {
      var next := r.(got := r.got + [s[0]]);
      assert Feed(accepts, r, s[0]) == next;
      Gather(accepts, next, s[1..]);
      assert r.got + [s[0]] + s[1..] == r.got + s;
    }
  }

  /** A field that becomes complete. */
  lemma FillField(accepts: Accepts, phase: Phase, s: seq<Octet>, out: seq<Entry>)
    requires IsField(phase) && |s| == Need(phase) > 0
    ensures FeedAll(accepts, Reader(phase, [], out), s) == Settle(accepts, Complete(accepts, phase, s, out))
  {
    hide Complete, Settle;
    var n := |s| - 1;
    var r := Reader(phase, [], out);
    Gather(accepts, r, s[..n]);
    assert s == s[..n] + [s[n]];
    FeedInPieces(accepts, r, s[..n], [s[n]]);
    FeedOne(accepts, r.(got := s[..n]), s[n]);
    assert r.got + s[..n] == s[..n];
  }

  lemma FeedOne(accepts: Accepts, r: Reader, x: Octet)
    ensures FeedAll(accepts, r, [x]) == Feed(accepts, r, x)
  {
    hide Feed;
    assert [x][1..] == [];
    assert FeedAll(accepts, Feed(accepts, r, x), []) == Feed(accepts, r, x);
  }

  lemma AddDataTwice(out: seq<Entry>, a: seq<Octet>, b: seq<Octet>)
    ensures AddData(AddData(out, a), b) == AddData(out, a + b)
    ensures AddData(out, []) == out
  {
    if out != [] && out[|out| - 1].File? {
      var c := out[|out| - 1].content;
      assert c + a + b == c + (a + b) && c + [] == c;
    }
  }

  /** File data as long as it belongs to the file. */
  lemma {:induction false} TakeData(accepts: Accepts, remaining: nat, s: seq<Octet>, out: seq<Entry>)
    requires |s| <= remaining && remaining > 0
    ensures FeedAll(accepts, Reader(Data(remaining), [], out), s)
            == Settle(accepts, Reader(Data(remaining - |s|), [], AddData(out, s)))
    decreases |s|
  {
    hide AddData;
    if s == [] {
      AddDataTwice(out, [], []);
    } else {
      var rest := s[1..];
      AddDataTwice(out, [s[0]], rest);
      assert [s[0]] + rest == s;
      if rest == [] {
        AddDataTwice(AddData(out, [s[0]]), [], []);
      } else {
        TakeData(accepts, remaining - 1, rest, AddData(out, [s[0]]));
      }
    }
  }

  // ---- The format --------------------------------------------------------------------------------

  function RecordHead(tag: Octet, path: seq<Octet>): seq<Octet> {
    [tag] + Le(|path|, 4) + path
  }

  /** A record; of a file as much of its content as there is. */
  function Record(e: Entry): seq<Octet> {
    match e
    case Dir(path) => RecordHead(RECORD_DIR, path)
    case File(path, len, content) => RecordHead(RECORD_FILE, path) + Le(len, 8) + content
  }

  function Records(entries: seq<Entry>): seq<Octet> {
    if entries == [] then [] else Records(entries[..|entries| - 1]) + Record(entries[|entries| - 1])
  }

  function HeaderBytes(): (s: seq<Octet>)
    ensures |s| == 5
  {
    MAGIC + [VERSION]
  }

  function ArchiveBytes(entries: seq<Entry>): seq<Octet> {
    HeaderBytes() + Records(entries) + [RECORD_END]
  }

  /** An accepted path whose length has a field; a file whose length has a field and is the length of its content. */
  predicate EntryOk(accepts: Accepts, e: Entry) {
    accepts(e.path) && |e.path| <= U32_MAX && (e.File? ==> |e.content| == e.len <= U64_MAX)
  }

  predicate EntriesOk(accepts: Accepts, entries: seq<Entry>) {
    forall i :: 0 <= i < |entries| ==> EntryOk(accepts, entries[i])
  }

  lemma TagReads(accepts: Accepts, tag: Octet, out: seq<Entry>)
    requires tag == RECORD_FILE || tag == RECORD_DIR
    ensures FeedAll(accepts, Reader(Tag, [], out), [tag]) == Reader(PathLen(tag), [], out)
  {
    FillField(accepts, Tag, [tag], out);
  }

  lemma PathLenReads(accepts: Accepts, tag: Octet, path: seq<Octet>, out: seq<Entry>)
    requires |path| <= U32_MAX
    ensures FeedAll(accepts, Reader(PathLen(tag), [], out), Le(|path|, 4))
            == Settle(accepts, Reader(Path(tag, |path|), [], out))
  {
    hide FeedAll, Le, FromLe, Pow256, Settle;
    Widths();
    FromLeOfLe(|path|, 4);
    FillField(accepts, PathLen(tag), Le(|path|, 4), out);
  }

  lemma PathReads(accepts: Accepts, tag: Octet, path: seq<Octet>, out: seq<Entry>)
    requires accepts(path)
    ensures FeedAll(accepts, Settle(accepts, Reader(Path(tag, |path|), [], out)), path)
            == if tag == RECORD_DIR then Reader(Tag, [], out + [Dir(path)]) else Reader(FileLen(path), [], out)
  {
    if path != [] {
      FillField(accepts, Path(tag, |path|), path, out);
    }
  }

  lemma HeadReads(accepts: Accepts, tag: Octet, path: seq<Octet>, out: seq<Entry>)
    requires (tag == RECORD_FILE || tag == RECORD_DIR) && accepts(path) && |path| <= U32_MAX
    ensures FeedAll(accepts, Reader(Tag, [], out), RecordHead(tag, path))
            == if tag == RECORD_DIR then Reader(Tag, [], out + [Dir(path)]) else Reader(FileLen(path), [], out)
  {
    hide FeedAll, Le, Settle;
    var r := Reader(Tag, [], out);
    FeedInPieces(accepts, r, [tag] + Le(|path|, 4), path);
    FeedInPieces(accepts, r, [tag], Le(|path|, 4));
    TagReads(accepts, tag, out);
    PathLenReads(accepts, tag, path, out);
    PathReads(accepts, tag, path, out);
  }

  lemma FileLenReads(accepts: Accepts, path: seq<Octet>, len: nat, out: seq<Entry>)
    requires len <= U64_MAX
    ensures FeedAll(accepts, Reader(FileLen(path), [], out), Le(len, 8))
            == Settle(accepts, Reader(Data(len), [], out + [File(path, len, [])]))
  {
    hide FeedAll, Le, FromLe, Pow256, Settle;
    Widths();
    FromLeOfLe(len, 8);
    FillField(accepts, FileLen(path), Le(len, 8), out);
  }

  lemma ContentReads(accepts: Accepts, path: seq<Octet>, content: seq<Octet>, out: seq<Entry>)
    ensures FeedAll(accepts, Settle(accepts, Reader(Data(|content|), [], out + [File(path, |content|, [])])), content)
            == Reader(Tag, [], out + [File(path, |content|, content)])
  {
    hide AddData, Settle, FeedAll;
    var begun := out + [File(path, |content|, [])];
    AddToBegun(path, |content|, content, out);
    SettleData(accepts, |content|, begun);
    SettleData(accepts, 0, AddData(begun, content));
    FeedNone(accepts, Reader(Tag, [], begun));
    if content == [] {
      AddDataTwice(begun, [], []);
    } else {
      TakeData(accepts, |content|, content, begun);
    }
  }

  lemma SettleData(accepts: Accepts, remaining: nat, out: seq<Entry>)
    ensures Settle(accepts, Reader(Data(remaining), [], out))
            == Reader(if remaining == 0 then Tag else Data(remaining), [], out)
  {
  }

  lemma FeedNone(accepts: Accepts, r: Reader)
    ensures FeedAll(accepts, r, []) == r
  {
  }

  lemma AddToBegun(path: seq<Octet>, len: nat, content: seq<Octet>, out: seq<Entry>)
    ensures AddData(out + [File(path, len, [])], content) == out + [File(path, len, content)]
  {
    assert [] + content == content;
    var e: Entry := File(path, len, []);
    assert (out + [e])[|out|] == e;
  }

  lemma RecordReads(accepts: Accepts, e: Entry, out: seq<Entry>)
    requires EntryOk(accepts, e)
    ensures FeedAll(accepts, Reader(Tag, [], out), Record(e)) == Reader(Tag, [], out + [e])
  {
    hide FeedAll, Le, Settle, RecordHead;
    match e
    case Dir(path) => HeadReads(accepts, RECORD_DIR, path, out);
    case File(path, len, content) =>
      var r := Reader(Tag, [], out);
      FeedInPieces(accepts, r, RecordHead(RECORD_FILE, path) + Le(len, 8), content);
      FeedInPieces(accepts, r, RecordHead(RECORD_FILE, path), Le(len, 8));
      HeadReads(accepts, RECORD_FILE, path, out);
      FileLenReads(accepts, path, len, out);
      ContentReads(accepts, path, content, out);
  }

  lemma {:induction false} RecordsRead(accepts: Accepts, entries: seq<Entry>)
    requires EntriesOk(accepts, entries)
    ensures FeedAll(accepts, Start(), HeaderBytes() + Records(entries)) == Reader(Tag, [], entries)
    decreases |entries|
  {
    hide FeedAll, Record, EntryOk;
    if entries == [] {
      assert HeaderBytes() + Records(entries) == HeaderBytes();
      FillField(accepts, Header, HeaderBytes(), []);
      HeaderCompletes(accepts);
    } else {
      var init, last := entries[..|entries| - 1], entries[|entries| - 1];
      RecordsRead(accepts, init);
      RecordReads(accepts, last, init);
      FeedInPieces(accepts, Start(), HeaderBytes() + Records(init), Record(last));
      assert HeaderBytes() + Records(entries) == HeaderBytes() + Records(init) + Record(last);
      assert init + [last] == entries;
    }
  }

  lemma HeaderCompletes(accepts: Accepts)
    ensures Settle(accepts, Complete(accepts, Header, HeaderBytes(), [])) == Reader(Tag, [], [])
  {
    assert HeaderBytes()[..4] == MAGIC;
  }

  /** A valid archive reads as its entries and ends there. */
  lemma ArchiveReads(accepts: Accepts, entries: seq<Entry>)
    requires EntriesOk(accepts, entries)
    ensures FeedAll(accepts, Start(), ArchiveBytes(entries)) == Reader(Finished, [], entries)
  {
    hide FeedAll, Records, EntryOk;
    RecordsRead(accepts, entries);
    FeedInPieces(accepts, Start(), HeaderBytes() + Records(entries), [RECORD_END]);
    FillField(accepts, Tag, [RECORD_END], entries);
  }

  // ---- Only valid archives are accepted ----------------------------------------------------------

  /** The octets that have been read. */
  function Seen(r: Reader): seq<Octet> {
    match r.phase
    case Header => r.got
    case Tag => HeaderBytes() + Records(r.out) + r.got
    case PathLen(tag) => HeaderBytes() + Records(r.out) + [tag] + r.got
    case Path(tag, len) => HeaderBytes() + Records(r.out) + [tag] + Le(len, 4) + r.got
    case FileLen(path) => HeaderBytes() + Records(r.out) + RecordHead(RECORD_FILE, path) + r.got
    case Data(_) => HeaderBytes() + Records(r.out) + r.got
    case Finished => HeaderBytes() + Records(r.out) + [RECORD_END] + r.got
    case Failed(_) => []
  }

  predicate IsTag(tag: Octet) {
    tag == RECORD_FILE || tag == RECORD_DIR
  }

  /** A file whose content is still coming. */
  predicate Coming(accepts: Accepts, e: Entry, remaining: nat) {
    e.File? && accepts(e.path) && |e.path| <= U32_MAX && |e.content| + remaining == e.len <= U64_MAX
  }

  ghost predicate Sane(accepts: Accepts, r: Reader) {
    && (IsField(r.phase) ==> |r.got| < Need(r.phase))
    && match r.phase {
      case Header => r.out == []
      case Tag => EntriesOk(accepts, r.out)
      case PathLen(tag) => EntriesOk(accepts, r.out) && IsTag(tag)
      case Path(tag, len) => EntriesOk(accepts, r.out) && IsTag(tag) && len <= U32_MAX
      case FileLen(path) => EntriesOk(accepts, r.out) && accepts(path) && |path| <= U32_MAX
      case Data(remaining) =>
        && remaining > 0 && r.got == [] && r.out != []
        && EntriesOk(accepts, r.out[..|r.out| - 1]) && Coming(accepts, r.out[|r.out| - 1], remaining)
      case Finished => EntriesOk(accepts, r.out)
      case Failed(_) => true
    }
  }

  lemma RecordsAdd(entries: seq<Entry>, e: Entry)
    ensures Records(entries + [e]) == Records(entries) + Record(e)
  {
    assert (entries + [e])[..|entries|] == entries;
  }

  lemma LeWidths(got: seq<Octet>)
    ensures |got| == 4 ==> FromLe(got) <= U32_MAX && Le(FromLe(got), 4) == got
    ensures |got| == 8 ==> FromLe(got) <= U64_MAX && Le(FromLe(got), 8) == got
  {
    hide FromLe, Le, Pow256;
    Widths();
    LeOfFromLe(got);
  }

  /** What has been read before a field, so that the field's octets are what follows. */
  function Before(r: Reader): seq<Octet> {
    Seen(r.(got := []))
  }

  lemma SeenSplit(r: Reader)
    requires !r.phase.Failed?
    ensures Seen(r) == Before(r) + r.got
  {
    hide Records, Le, HeaderBytes, RecordHead;
  }

  lemma FieldKeeps(accepts: Accepts, phase: Phase, got: seq<Octet>, out: seq<Entry>)
    requires IsField(phase) && Need(phase) > 0 && |got| == Need(phase) && Sane(accepts, Reader(phase, [], out))
    requires !Complete(accepts, phase, got, out).phase.Failed?
    requires !Settle(accepts, Complete(accepts, phase, got, out)).phase.Failed?
    ensures Sane(accepts, Settle(accepts, Complete(accepts, phase, got, out)))
    ensures Seen(Settle(accepts, Complete(accepts, phase, got, out))) == Before(Reader(phase, [], out)) + got
  {
    match phase
    case Header => HeaderSeen(got);
    case Tag => TagSeen(out, got);
    case PathLen(tag) => PathLenSeen(accepts, tag, got, out);
    case Path(tag, len) => PathSeen(accepts, tag, got, out);
    case FileLen(path) => FileLenSeen(accepts, path, got, out);
  }

  lemma HeaderSeen(got: seq<Octet>)
    requires |got| == 5 && got[..4] == MAGIC && got[4] == VERSION
    ensures Seen(Reader(Tag, [], [])) == Seen(Reader(Header, [], [])) + got
  {
    assert got == got[..4] + [got[4]];
    assert HeaderBytes() + [] + [] == HeaderBytes();
  }

  lemma TagSeen(out: seq<Entry>, got: seq<Octet>)
    requires |got| == 1
    ensures Seen(Reader(PathLen(got[0]), [], out)) == Seen(Reader(Tag, [], out)) + got
    ensures got[0] == RECORD_END ==> Seen(Reader(Finished, [], out)) == Seen(Reader(Tag, [], out)) + got
  {
    hide Records, HeaderBytes;
    assert got == [got[0]];
  }

  lemma PathSeen(accepts: Accepts, tag: Octet, got: seq<Octet>, out: seq<Entry>)
    requires IsTag(tag) && EntriesOk(accepts, out) && |got| <= U32_MAX && accepts(got)
    ensures var r := Complete(accepts, Path(tag, |got|), got, out);
            Sane(accepts, r) && Settle(accepts, r) == r && Seen(r) == Seen(Reader(Path(tag, |got|), [], out)) + got
  {
    hide Records, HeaderBytes, Le;
    var h := HeaderBytes() + Records(out);
    if tag == RECORD_DIR {
      RecordsAdd(out, Dir(got));
      assert h + RecordHead(tag, got) == h + [tag] + Le(|got|, 4) + got;
      assert HeaderBytes() + (Records(out) + RecordHead(tag, got)) == h + RecordHead(tag, got);
    } else {
      assert h + RecordHead(tag, got) == h + [tag] + Le(|got|, 4) + got;
    }
  }

  lemma PathLenSeen(accepts: Accepts, tag: Octet, got: seq<Octet>, out: seq<Entry>)
    requires IsTag(tag) && EntriesOk(accepts, out) && |got| == 4
    requires !Settle(accepts, Complete(accepts, PathLen(tag), got, out)).phase.Failed?
    ensures var r := Settle(accepts, Complete(accepts, PathLen(tag), got, out));
            Sane(accepts, r) && Seen(r) == Seen(Reader(PathLen(tag), [], out)) + got
  {
    hide Records, HeaderBytes, Le, FromLe, EntryOk;
    LeWidths(got);
    var h := HeaderBytes() + Records(out) + [tag];
    assert h + got + [] == h + [] + got;
    if FromLe(got) == 0 {
      PathSeen(accepts, tag, [], out);
    }
  }

  lemma FileLenSeen(accepts: Accepts, path: seq<Octet>, got: seq<Octet>, out: seq<Entry>)
    requires EntriesOk(accepts, out) && accepts(path) && |path| <= U32_MAX && |got| == 8
    ensures var r := Settle(accepts, Complete(accepts, FileLen(path), got, out));
            Sane(accepts, r) && Seen(r) == Seen(Reader(FileLen(path), [], out)) + got
  {
    hide Records, HeaderBytes, Le, FromLe, RecordHead;
    LeWidths(got);
    var e := File(path, FromLe(got), []);
    RecordsAdd(out, e);
    var h, p := HeaderBytes() + Records(out), RecordHead(RECORD_FILE, path);
    assert Record(e) == p + got;
    assert HeaderBytes() + (Records(out) + (p + got)) + [] == h + p + [] + got;
    assert (out + [e])[..|out|] == out;
  }

  lemma DataKeeps(accepts: Accepts, r: Reader, x: Octet)
    requires Sane(accepts, r) && r.phase.Data?
    ensures Sane(accepts, Feed(accepts, r, x)) && Seen(Feed(accepts, r, x)) == Seen(r) + [x]
  {
    hide Records, HeaderBytes, Le, RecordHead, EntriesOk;
    var n := |r.out| - 1;
    var init, e := r.out[..n], r.out[n];
    var e' := e.(content := e.content + [x]);
    var out' := AddData(r.out, [x]);
    assert out' == init + [e'] && r.out == init + [e];
    RecordsAdd(init, e);
    RecordsAdd(init, e');
    assert Record(e') == Record(e) + [x];
    assert HeaderBytes() + (Records(init) + (Record(e) + [x])) + []
        == HeaderBytes() + (Records(init) + Record(e)) + [] + [x];
    if r.phase.remaining == 1 {
      LastComes(accepts, init, e');
    }
  }

  lemma LastComes(accepts: Accepts, init: seq<Entry>, e: Entry)
    requires EntriesOk(accepts, init) && Coming(accepts, e, 0)
    ensures EntriesOk(accepts, init + [e])
  {
  }

  lemma FeedKeeps(accepts: Accepts, r: Reader, x: Octet)
    requires Sane(accepts, r) && !Feed(accepts, r, x).phase.Failed?
    ensures Sane(accepts, Feed(accepts, r, x)) && Seen(Feed(accepts, r, x)) == Seen(r) + [x]
  {
    hide Seen, Complete, Settle, Before;
    if r.phase.Data? {
      DataKeeps(accepts, r, x);
    } else {
      var next := r.(got := r.got + [x]);
      SeenSplit(r);
      SeenSplit(next);
      assert Before(r) + (r.got + [x]) == Before(r) + r.got + [x];
      SameBefore(r, next);
      if IsField(r.phase) && |r.got| + 1 == Need(r.phase) {
        SameBefore(r, Reader(r.phase, [], r.out));
        SettleKeepsFailure(accepts, Complete(accepts, r.phase, r.got + [x], r.out));
        FieldKeeps(accepts, r.phase, r.got + [x], r.out);
      }
    }
  }

  lemma SettleKeepsFailure(accepts: Accepts, r: Reader)
    ensures r.phase.Failed? ==> Settle(accepts, r).phase.Failed?
  {
  }

  lemma SameBefore(r: Reader, r': Reader)
    requires r'.phase == r.phase && r'.out == r.out
    ensures Before(r') == Before(r)
  {
    hide Seen;
    assert r'.(got := []) == r.(got := []);
  }

  lemma {:induction false} FeedAllKeeps(accepts: Accepts, r: Reader, s: seq<Octet>)
    requires Sane(accepts, r) && !FeedAll(accepts, r, s).phase.Failed?
    ensures Sane(accepts, FeedAll(accepts, r, s)) && Seen(FeedAll(accepts, r, s)) == Seen(r) + s
    decreases |s|
  {
    hide Sane, Seen, Feed;
    if s == [] {
      assert Seen(r) + s == Seen(r);
    } else {
      var next := Feed(accepts, r, s[0]);
      if next.phase.Failed? {
        StaysFailed(accepts, next, s[1..]);
      }
      FeedKeeps(accepts, r, s[0]);
      FeedAllKeeps(accepts, next, s[1..]);
      assert Seen(r) + [s[0]] + s[1..] == Seen(r) + s;
    }
  }

  /** Exactly the archives of the format are read to their end, and each only as its own entries. */
  lemma AcceptedIff(accepts: Accepts, s: seq<Octet>, entries: seq<Entry>)
    ensures FeedAll(accepts, Start(), s) == Reader(Finished, [], entries)
            <==> EntriesOk(accepts, entries) && s == ArchiveBytes(entries)
  {
    hide FeedAll, Records, EntryOk;
    if FeedAll(accepts, Start(), s) == Reader(Finished, [], entries) {
      FeedAllKeeps(accepts, Start(), s);
      assert [] + s == s;
      assert ArchiveBytes(entries) + [] == ArchiveBytes(entries);
    }
    if EntriesOk(accepts, entries) && s == ArchiveBytes(entries) {
      ArchiveReads(accepts, entries);
    }
  }

  // ---- Written out -------------------------------------------------------------------------------

  lemma SmallNumbers()
    ensures Le(1, 4) == [1, 0, 0, 0] && Le(2, 8) == [2, 0, 0, 0, 0, 0, 0, 0]
  {
    assert Le(0, 3) == [0, 0, 0] by {
      assert Le(0, 1) == [0] + Le(0, 0);
    }
    assert Le(0, 7) == [0, 0, 0, 0, 0, 0, 0] by {
      assert Le(0, 4) == [0] + Le(0, 3);
      assert Le(0, 6) == [0] + ([0] + Le(0, 4));
    }
  }

  /** A directory, octet by octet. */
  lemma SmallDir()
    ensures Record(Dir([97])) == [2, 1, 0, 0, 0, 97]
  {
    hide Le;
    SmallNumbers();
  }

  /** A file of two octets, octet by octet. */
  lemma SmallFile()
    ensures Record(File([98], 2, [104, 105])) == [1, 1, 0, 0, 0, 98, 2, 0, 0, 0, 0, 0, 0, 0, 104, 105]
  {
    hide Le;
    SmallNumbers();
  }

  lemma {:induction false} RecordsAre(a: Entry, b: Entry)
    ensures Records([a, b]) == Record(a) + Record(b)
  {
    hide Record;
    assert [a, b][..1] == [a] && [a][..0] == [];
    assert Records([a]) == Records([]) + Record(a);
  }

  /** An archive of a directory and a file, octet by octet: the letters CZAR and the version, the two records, and the
      end tag. */
  lemma SmallArchive()
    ensures ArchiveBytes([Dir([97]), File([98], 2, [104, 105])])
            == [0x43, 0x5A, 0x41, 0x52, 1] + [2, 1, 0, 0, 0, 97]
               + [1, 1, 0, 0, 0, 98, 2, 0, 0, 0, 0, 0, 0, 0, 104, 105] + [0]
  {
    hide Record;
    SmallDir();
    SmallFile();
    RecordsAre(Dir([97]), File([98], 2, [104, 105]));
    assert ArchiveBytes([Dir([97]), File([98], 2, [104, 105])])
        == [0x43, 0x5A, 0x41, 0x52, 1] + (Record(Dir([97])) + Record(File([98], 2, [104, 105]))) + [0];
  }
}
