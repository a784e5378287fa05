/** The prefetching archive serialiser: it hands out an archive in reads of any size while reading files ahead. */
module ArchiveReader {
  import opened Options
  import opened Octets
  import opened ArchiveFormat

  const BACKLOG: nat := 0x8000_0000
  const RESERVE: nat := 0x1000_0000
  const REQUEST_SIZE: nat := 0x40_0000
  const MAX_INFLIGHT: nat := 64
  const MAX_OPEN_FILES: nat := 64

  /** A positional read that has been submitted. */
  datatype Request = Request(offset: nat, len: nat)

  /** An open file: requests under way, the piece being handed out, and the offset of the next request. */
  datatype OpenFile = OpenFile(
    entryIndex: nat,
    inflight: seq<Request>,
    chunk: seq<Octet>,
    chunkPos: nat,
    nextSubmit: nat)

  function Min(a: nat, b: nat): nat {
    if a <= b then a else b
  }

  // ---- What is still to come of a file -----------------------------------------------------------

  predicate RequestOk(content: seq<Octet>, r: Request) {
    0 < r.len <= REQUEST_SIZE && r.offset + r.len <= |content|
  }

  predicate FileOk(content: seq<Octet>, f: OpenFile) {
    && f.chunkPos <= |f.chunk| <= REQUEST_SIZE && f.nextSubmit <= |content|
    && forall k :: 0 <= k < |f.inflight| ==> RequestOk(content, f.inflight[k])
  }

  /** Reads are exact: a request yields its range of the file. */
  function Answer(content: seq<Octet>, r: Request): seq<Octet> {
    if r.offset + r.len <= |content| then content[r.offset..r.offset + r.len] else []
  }

  function Answers(content: seq<Octet>, inflight: seq<Request>): seq<Octet> {
    if inflight == [] then [] else Answer(content, inflight[0]) + Answers(content, inflight[1..])
  }

  function Remaining(content: seq<Octet>, f: OpenFile): seq<Octet>
    requires FileOk(content, f)
  {
    f.chunk[f.chunkPos..] + Answers(content, f.inflight) + content[f.nextSubmit..]
  }

  function RequestBytes(inflight: seq<Request>): nat {
    if inflight == [] then 0 else inflight[0].len + RequestBytes(inflight[1..])
  }

  /** The bytes held or asked for on behalf of a file. */
  function Held(f: OpenFile): nat {
    (if f.chunkPos <= |f.chunk| then |f.chunk| - f.chunkPos else 0) + RequestBytes(f.inflight)
  }

  function TotalHeld(files: seq<OpenFile>): nat {
    if files == [] then 0 else Held(files[0]) + TotalHeld(files[1..])
  }

  /** There is something to hand out or to wait for, or the file is through. */
  predicate CanGoOn(content: seq<Octet>, f: OpenFile) {
    f.chunkPos < |f.chunk| || f.inflight != [] || f.nextSubmit >= |content|
  }

  lemma {:induction false} AnswersAppend(content: seq<Octet>, inflight: seq<Request>, r: Request)
    ensures Answers(content, inflight + [r]) == Answers(content, inflight) + Answer(content, r)
    ensures RequestBytes(inflight + [r]) == RequestBytes(inflight) + r.len
    decreases |inflight|
  {
    if inflight != [] {
      assert (inflight + [r])[1..] == inflight[1..] + [r];
      AnswersAppend(content, inflight[1..], r);
    } else {
      assert inflight + [r] == [r] && [r][1..] == [];
      assert Answers(content, []) == [];
    }
  }

  /** The request that follows the ones under way. */
  function Submitted(f: OpenFile, len: nat): OpenFile {
    f.(inflight := f.inflight + [Request(f.nextSubmit, len)], nextSubmit := f.nextSubmit + len)
  }

  lemma SubmitKeeps(content: seq<Octet>, f: OpenFile, len: nat)
    requires FileOk(content, f) && 0 < len <= REQUEST_SIZE && f.nextSubmit + len <= |content|
    ensures FileOk(content, Submitted(f, len)) && Remaining(content, Submitted(f, len)) == Remaining(content, f)
    ensures Held(Submitted(f, len)) == Held(f) + len
  {
    hide Answers, Answer;
    var r := Request(f.nextSubmit, len);
    AnswersAppend(content, f.inflight, r);
    AnswerSplits(content, r);
    FourPieces(f.chunk[f.chunkPos..], Answers(content, f.inflight), Answer(content, r), content[f.nextSubmit + len..]);
  }

  lemma AnswerSplits(content: seq<Octet>, r: Request)
    requires r.offset + r.len <= |content|
    ensures content[r.offset..] == Answer(content, r) + content[r.offset + r.len..]
  {
  }

  lemma FourPieces(a: seq<Octet>, b: seq<Octet>, c: seq<Octet>, d: seq<Octet>)
    ensures a + b + (c + d) == a + (b + c) + d
  {
  }

  // ---- The open files ----------------------------------------------------------------------------

  /** The position of the first open file for an entry. */
  function FindFile(files: seq<OpenFile>, k: nat): (r: Option<nat>)
    ensures r.Some? ==> r.value < |files| && files[r.value].entryIndex == k
    ensures r.None? ==> forall p :: 0 <= p < |files| ==> files[p].entryIndex != k
  {
    if files == [] then None
    else if files[0].entryIndex == k then Some(0)
    else
      match FindFile(files[1..], k)
      case None => None
      case Some(p) =>
        assert files[1..][p] == files[p + 1];
        Some(p + 1)
  }

  lemma {:induction false} FindAfterPush(files: seq<OpenFile>, f: OpenFile, k: nat)
    ensures FindFile(files, k).Some? ==> FindFile(files + [f], k) == FindFile(files, k)
    decreases |files|
  {
    if files != [] {
      assert (files + [f])[1..] == files[1..] + [f];
      FindAfterPush(files[1..], f, k);
    }
  }

  lemma {:induction false} FindAfterUpdate(files: seq<OpenFile>, p: nat, f: OpenFile, k: nat)
    requires p < |files| && f.entryIndex == files[p].entryIndex
    ensures FindFile(files[p := f], k) == FindFile(files, k)
    decreases |files|
  {
    if p > 0 {
      assert files[p := f][1..] == files[1..][p - 1 := f];
      FindAfterUpdate(files[1..], p - 1, f, k);
    } else {
      assert files[p := f][1..] == files[1..];
    }
  }

  lemma {:induction false} HeldUpdate(files: seq<OpenFile>, p: nat, f: OpenFile)
    requires p < |files|
    ensures TotalHeld(files[p := f]) + Held(files[p]) == TotalHeld(files) + Held(f)
    ensures Held(files[p]) <= TotalHeld(files)
    decreases |files|
  {
    hide Held;
    if p > 0 {
      assert files[p := f][1..] == files[1..][p - 1 := f];
      HeldUpdate(files[1..], p - 1, f);
    } else {
      assert files[p := f][1..] == files[1..];
    }
  }

  lemma {:induction false} HeldPush(files: seq<OpenFile>, f: OpenFile)
    ensures TotalHeld(files + [f]) == TotalHeld(files) + Held(f)
    decreases |files|
  {
    hide Held;
    if files != [] {
      assert (files + [f])[1..] == files[1..] + [f];
      HeldPush(files[1..], f);
    } else {
      assert [f][1..] == [] && files + [f] == [f];
      assert TotalHeld([]) == 0;
    }
  }

  lemma {:induction false} HeldRemove(files: seq<OpenFile>, p: nat)
    requires p < |files|
    ensures TotalHeld(files[..p] + files[p + 1..]) + Held(files[p]) == TotalHeld(files)
    decreases |files|
  {
    hide Held;
    if p > 0 {
      HeldRemove(files[1..], p - 1);
      assert (files[..p] + files[p + 1..])[1..] == files[1..][..p - 1] + files[1..][p..];
    } else {
      assert files[..p] + files[p + 1..] == files[1..];
    }
  }

  function Fresh(k: nat): OpenFile {
    OpenFile(k, [], [], 0, 0)
  }

  lemma FreshRemains(content: seq<Octet>, k: nat)
    ensures FileOk(content, Fresh(k)) && Remaining(content, Fresh(k)) == content && Held(Fresh(k)) == 0
  {
  }

  // ---- The state between calls -------------------------------------------------------------------

  predicate EntryIsFile(entries: seq<Entry>, k: nat) {
    k < |entries| && entries[k].File?
  }

  function ContentOf(entries: seq<Entry>, f: OpenFile): seq<Octet> {
    if EntryIsFile(entries, f.entryIndex) then entries[f.entryIndex].content else []
  }

  ghost predicate OpenOk(entries: seq<Entry>, f: OpenFile) {
    EntryIsFile(entries, f.entryIndex) && FileOk(entries[f.entryIndex].content, f)
  }

  /** Nothing of the file has been handed out yet. */
  ghost predicate Untouched(entries: seq<Entry>, f: OpenFile)
    requires OpenOk(entries, f)
  {
    Remaining(entries[f.entryIndex].content, f) == entries[f.entryIndex].content
  }

  function CurrentPos(files: seq<OpenFile>, current: Option<nat>): (r: Option<nat>)
    ensures r.Some? ==> r.value < |files|
  {
    if current.None? then None else FindFile(files, current.value)
  }

  /** The bytes held for all files but the current one. */
  ghost function OthersHeld(files: seq<OpenFile>, current: Option<nat>): int {
    var p := CurrentPos(files, current);
    TotalHeld(files) - if p.Some? then Held(files[p.value]) else 0
  }

  /** The open files are in order: the counter is the true sum, nothing has been handed out of a file that is not
      the current one, and all of these together hold no more than the backlog limit. */
  ghost predicate FilesOk(entries: seq<Entry>, files: seq<OpenFile>, bytes: nat, current: Option<nat>) {
    && (forall p :: 0 <= p < |files| ==> OpenOk(entries, files[p]))
    && bytes == TotalHeld(files)
    && (current.Some? ==> CurrentPos(files, current).Some?)
    && (forall p :: 0 <= p < |files| && CurrentPos(files, current) != Some(p) ==> Untouched(entries, files[p]))
    && OthersHeld(files, current) <= BACKLOG
  }

  /** Replacing an open file by one with more requests under way. */
  lemma UpdateOk(entries: seq<Entry>, files: seq<OpenFile>, bytes: nat, current: Option<nat>, p: nat, f: OpenFile,
      bytes': nat)
    requires FilesOk(entries, files, bytes, current) && p < |files|
    requires f.entryIndex == files[p].entryIndex && OpenOk(entries, f)
    requires Remaining(entries[f.entryIndex].content, f) == Remaining(entries[f.entryIndex].content, files[p])
    requires bytes' + Held(files[p]) == bytes + Held(f) && Held(f) >= Held(files[p])
    requires CurrentPos(files, current) == Some(p) || bytes' <= BACKLOG || bytes' == bytes
    ensures FilesOk(entries, files[p := f], bytes', current)
    ensures CurrentPos(files[p := f], current) == CurrentPos(files, current)
  {
    hide Held, TotalHeld, FileOk, Remaining, FindFile;
    if current.Some? {
      FindAfterUpdate(files, p, f, current.value);
    }
    HeldUpdate(files, p, f);
    var files' := files[p := f];
    var c := CurrentPos(files, current);
    if c.Some? && c.value != p {
      HeldUpdate(files', c.value, files'[c.value]);
    }
  }

  lemma PushOk(entries: seq<Entry>, files: seq<OpenFile>, bytes: nat, current: Option<nat>, k: nat)
    requires FilesOk(entries, files, bytes, current) && EntryIsFile(entries, k)
    ensures FilesOk(entries, files + [Fresh(k)], bytes, current)
    ensures CurrentPos(files + [Fresh(k)], current) == CurrentPos(files, current)
  {
    hide Held, TotalHeld, FileOk, Remaining, FindFile, Fresh;
    FreshRemains(entries[k].content, k);
    FreshIndex(k);
    HeldPush(files, Fresh(k));
    if current.Some? {
      FindAfterPush(files, Fresh(k), current.value);
    }
  }

  lemma FreshIndex(k: nat)
    ensures Fresh(k).entryIndex == k && Fresh(k).inflight == [] && Fresh(k).nextSubmit == 0
  {
  }

  /** What is still to come of the current file. */
  ghost function CurrentLeft(entries: seq<Entry>, files: seq<OpenFile>, current: Option<nat>): seq<Octet>
    requires forall p :: 0 <= p < |files| ==> OpenOk(entries, files[p])
  {
    var p := CurrentPos(files, current);
    if p.Some? then
      assert OpenOk(entries, files[p.value]);
      Remaining(entries[files[p.value].entryIndex].content, files[p.value])
    else []
  }

  /** The current file can go on. */
  ghost predicate Flows(entries: seq<Entry>, files: seq<OpenFile>, current: Option<nat>)
    requires forall p :: 0 <= p < |files| ==> OpenOk(entries, files[p])
  {
    var p := CurrentPos(files, current);
    p.Some? ==>
      assert OpenOk(entries, files[p.value]);
      CanGoOn(entries[files[p.value].entryIndex].content, files[p.value])
  }

  /** What follows in the archive from the `i`-th entry on. */
  function Rest(entries: seq<Entry>, i: nat): seq<Octet>
    requires i <= |entries|
    decreases |entries| - i
  {
    if i == |entries| then [RECORD_END] else Record(entries[i]) + Rest(entries, i + 1)
  }

  lemma {:induction false} RestIsArchive(entries: seq<Entry>, i: nat)
    requires i <= |entries|
    ensures HeaderBytes() + Records(entries[..i]) + Rest(entries, i) == ArchiveBytes(entries)
    decreases |entries| - i
  {
    hide Record, HeaderBytes;
    if i == |entries| {
      assert entries[..i] == entries;
    } else {
      RestIsArchive(entries, i + 1);
      assert entries[..i + 1][..i] == entries[..i];
      var a, b, c, d := HeaderBytes(), Records(entries[..i]), Record(entries[i]), Rest(entries, i + 1);
      assert a + (b + c) + d == a + b + (c + d);
    }
  }

  /** The head of a record: everything but a file's content. */
  function Head(e: Entry): seq<Octet> {
    match e
    case Dir(path) => RecordHead(RECORD_DIR, path)
    case File(path, len, _) => RecordHead(RECORD_FILE, path) + Le(len, 8)
  }

  predicate LensOk(entries: seq<Entry>) {
    forall i :: 0 <= i < |entries| && entries[i].File? ==> |entries[i].content| == entries[i].len
  }

  lemma FullFile(content: seq<Octet>, f: OpenFile)
    requires FileOk(content, f) && f.inflight == [] && f.nextSubmit >= |content| && f.chunkPos >= |f.chunk|
    ensures Remaining(content, f) == [] && Held(f) == 0
  {
  }

  lemma NextChunk(content: seq<Octet>, f: OpenFile)
    requires FileOk(content, f) && f.inflight != [] && f.chunkPos >= |f.chunk|
    ensures var f' := f.(chunk := Answer(content, f.inflight[0]), chunkPos := 0, inflight := f.inflight[1..]);
            && FileOk(content, f') && Remaining(content, f') == Remaining(content, f) && Held(f') == Held(f)
            && |f'.chunk| > 0
  {
    assert RequestOk(content, f.inflight[0]);
    var a := Answer(content, f.inflight[0]);
    var f' := f.(chunk := a, chunkPos := 0, inflight := f.inflight[1..]);
    assert f.chunk[f.chunkPos..] == [] && f'.chunk[0..] == a;
    assert [] + (a + Answers(content, f.inflight[1..])) + content[f.nextSubmit..]
        == a + Answers(content, f.inflight[1..]) + content[f.nextSubmit..];
  }

  lemma TakeChunk(content: seq<Octet>, f: OpenFile, take: nat)
    requires FileOk(content, f) && take <= |f.chunk| - f.chunkPos
    ensures var f' := f.(chunkPos := f.chunkPos + take);
            && FileOk(content, f') && Held(f') + take == Held(f)
            && Remaining(content, f) == f.chunk[f.chunkPos..f.chunkPos + take] + Remaining(content, f')
  {
    assert f.chunk[f.chunkPos..] == f.chunk[f.chunkPos..f.chunkPos + take] + f.chunk[f.chunkPos + take..];
    var a, b, c, d := f.chunk[f.chunkPos..f.chunkPos + take], f.chunk[f.chunkPos + take..],
        Answers(content, f.inflight), content[f.nextSubmit..];
    assert a + b + c + d == a + (b + c + d);
  }

  /** Changing the current file only. */
  lemma CurrentOk(entries: seq<Entry>, files: seq<OpenFile>, bytes: nat, current: Option<nat>, p: nat, f: OpenFile,
      bytes': nat)
    requires FilesOk(entries, files, bytes, current) && CurrentPos(files, current) == Some(p)
    requires f.entryIndex == files[p].entryIndex && OpenOk(entries, f) && bytes' + Held(files[p]) == bytes + Held(f)
    ensures FilesOk(entries, files[p := f], bytes', current)
    ensures CurrentPos(files[p := f], current) == Some(p)
  {
    hide Held, TotalHeld, FileOk, Remaining, FindFile;
    FindAfterUpdate(files, p, f, current.value);
    HeldUpdate(files, p, f);
  }

  /** Closing the current file when it is through. */
  lemma CloseOk(entries: seq<Entry>, files: seq<OpenFile>, bytes: nat, current: Option<nat>, p: nat)
    requires FilesOk(entries, files, bytes, current) && CurrentPos(files, current) == Some(p) && Held(files[p]) == 0
    ensures FilesOk(entries, files[..p] + files[p + 1..], bytes, None)
  {
    hide Held, TotalHeld, FileOk, Remaining, FindFile;
    HeldRemove(files, p);
    var files' := files[..p] + files[p + 1..];
    forall q | 0 <= q < |files'|
      ensures OpenOk(entries, files'[q]) && Untouched(entries, files'[q])
    {
      var at := if q < p then q else q + 1;
      assert files'[q] == files[at];
    }
  }

  /** A file becomes the current one. */
  lemma ChooseOk(entries: seq<Entry>, files: seq<OpenFile>, bytes: nat, k: nat)
    requires FilesOk(entries, files, bytes, None) && FindFile(files, k).Some?
    ensures FilesOk(entries, files, bytes, Some(k))
    ensures CurrentLeft(entries, files, Some(k)) == entries[k].content
  {
    hide Held, TotalHeld, FileOk, Remaining, FindFile;
    var p := FindFile(files, k).value;
    assert Untouched(entries, files[p]);
    HeldUpdate(files, p, files[p]);
  }

  /** The current file opened late, in front of all others. */
  lemma OpenLateOk(entries: seq<Entry>, files: seq<OpenFile>, bytes: nat, k: nat)
    requires FilesOk(entries, files, bytes, None) && EntryIsFile(entries, k)
    ensures FilesOk(entries, [Fresh(k)] + files, bytes, Some(k))
    ensures CurrentPos([Fresh(k)] + files, Some(k)) == Some(0)
    ensures CurrentLeft(entries, [Fresh(k)] + files, Some(k)) == entries[k].content
  {
    hide Held, FileOk, Remaining, Fresh;
    FreshRemains(entries[k].content, k);
    FreshIndex(k);
    var files' := [Fresh(k)] + files;
    assert files'[1..] == files;
    assert FindFile(files', k) == Some(0);
  }

  /** What is held and asked for is at most 2 GiB and 256 MiB for the current file; at most 64 files are open, besides a
      current one that was opened late. */
  predicate Frugal(bytes: nat, open: nat, current: Option<nat>) {
    bytes <= 2147483648 + 268435456 && open <= 64 + if current.Some? then 1 else 0
  }

  /** Why no further request is submitted: 64 are under way, the file has been asked for to its end, or 2 GiB are held
      and asked for, 256 MiB more for the current file. */
  predicate Filled(content: seq<Octet>, f: OpenFile, bytes: nat, reserve: bool) {
    |f.inflight| >= 64 || f.nextSubmit >= |content| || bytes >= 2147483648 + if reserve then 268435456 else 0
  }

  /** The requests that were added follow one another; each is for 4 MiB, or for what is left of the file or of the
      limit. */
  predicate Added(content: seq<Octet>, before: OpenFile, after: OpenFile, bytes: nat, reserve: bool) {
    && before.inflight <= after.inflight
    && forall k :: |before.inflight| <= k < |after.inflight| ==>
         && after.inflight[k].offset ==
            (if k == |before.inflight| then before.nextSubmit
             else after.inflight[k - 1].offset + after.inflight[k - 1].len)
         && (|| after.inflight[k].len == 4194304
             || after.inflight[k].offset + after.inflight[k].len == |content|
             || (k == |after.inflight| - 1 && bytes == 2147483648 + if reserve then 268435456 else 0))
  }

  /** In between: the last of them ends where the next one starts. */
  ghost predicate AddedUpTo(content: seq<Octet>, before: OpenFile, after: OpenFile, bytes: nat, reserve: bool) {
    && Added(content, before, after, bytes, reserve)
    && (|after.inflight| == |before.inflight| ==> after.nextSubmit == before.nextSubmit)
    && (|after.inflight| > |before.inflight| ==>
          var last := after.inflight[|after.inflight| - 1]; last.offset + last.len == after.nextSubmit)
  }

  lemma AddedNone(content: seq<Octet>, f: OpenFile, bytes: nat, reserve: bool)
    ensures AddedUpTo(content, f, f, bytes, reserve)
  {
  }

  lemma AddedStep(content: seq<Octet>, before: OpenFile, f: OpenFile, bytes: nat, reserve: bool, len: nat)
    requires AddedUpTo(content, before, f, bytes, reserve) && f.nextSubmit < |content|
    requires var limit := if reserve then BACKLOG + RESERVE else BACKLOG;
             bytes < limit && len == Min(Min(|content| - f.nextSubmit, REQUEST_SIZE), limit - bytes)
    ensures AddedUpTo(content, before, Submitted(f, len), bytes + len, reserve)
  {
  }

  lemma AddedAll(content: seq<Octet>, before: OpenFile, after: OpenFile, bytes: nat, reserve: bool)
    requires AddedUpTo(content, before, after, bytes, reserve)
    ensures Added(content, before, after, bytes, reserve)
  {
  }

  class PDeflateArchiveReader {
    const entries: seq<Entry>
    var currentIndex: nat
    var pending: seq<Octet>
    var pendingPos: nat
    var current: Option<nat>
    var files: seq<OpenFile>
    var prefetchIndex: nat
    var prefetchedBytes: nat

    ghost predicate Sound()
      reads this
    {
      && LensOk(entries) && FilesOk(entries, files, prefetchedBytes, current)
      && pendingPos <= |pending| && currentIndex <= |entries| + 1 && (current.Some? ==> currentIndex <= |entries|)
      && Frugal(prefetchedBytes, |files|, current)
    }

    ghost predicate Valid()
      reads this
    {
      Sound() && Flows(entries, files, current)
    }

    /** What the reads still to come will hand out. */
    ghost function Upcoming(): seq<Octet>
      requires Sound()
      reads this
    {
      pending[pendingPos..] + CurrentLeft(entries, files, current)
      + if currentIndex <= |entries| then Rest(entries, currentIndex) else []
    }

    lemma ValidIsSound()
      requires Valid()
      ensures Sound()
    {
      hide FilesOk, LensOk, Flows;
    }

    constructor (entries: seq<Entry>)
      requires LensOk(entries)
      ensures this.entries == entries && Valid() && Upcoming() == ArchiveBytes(entries)
    {
      this.entries := entries;
      currentIndex, pending, pendingPos, current := 0, HeaderBytes(), 0, None;
      files, prefetchIndex, prefetchedBytes := [], 0, 0;
      new;
      RestIsArchive(entries, 0);
      assert Records(entries[..0]) == [];
      assert HeaderBytes() + [] == HeaderBytes();
    }

    /** Submits requests for one file up to its limits. `cur` is the file that is, or is about to be, current. */
    method FillPrefetchQueue(pos: nat, allowCurrentReserve: bool, ghost cur: Option<nat>)
      requires pos < |files| && FilesOk(entries, files, prefetchedBytes, cur)
      requires allowCurrentReserve ==> CurrentPos(files, cur) == Some(pos)
      requires prefetchedBytes <= 2147483648 + 268435456
      modifies this`files, this`prefetchedBytes
      ensures FilesOk(entries, files, prefetchedBytes, cur) && |files| == |old(files)|
      ensures prefetchedBytes <= 2147483648 + 268435456
      ensures var content := ContentOf(entries, files[pos]);
              && Filled(content, files[pos], prefetchedBytes, allowCurrentReserve)
              && Added(content, old(files)[pos], files[pos], prefetchedBytes, allowCurrentReserve)
      ensures CurrentPos(files, cur) == old(CurrentPos(files, cur))
      ensures CurrentLeft(entries, files, cur) == old(CurrentLeft(entries, files, cur))
      ensures old(Flows(entries, files, cur)) || allowCurrentReserve ==> Flows(entries, files, cur)
    {
      hide Held, TotalHeld, FileOk, Remaining, FindFile, Added, AddedUpTo;
      var limit := if allowCurrentReserve then BACKLOG + RESERVE else BACKLOG;
      var f, bytes := files[pos], prefetchedBytes;
      assert OpenOk(entries, f);
      ghost var content := entries[f.entryIndex].content;
      var fileLen := |entries[f.entryIndex].content|;
      ghost var f0, files0, bytes0 := f, files, prefetchedBytes;
      AddedNone(content, f, bytes, allowCurrentReserve);
      if allowCurrentReserve {
        CurrentHasRoom(entries, files, bytes, cur, pos);
      }
      while |f.inflight| < MAX_INFLIGHT && f.nextSubmit < fileLen && bytes < limit
        invariant files == files0 && prefetchedBytes == bytes0
        invariant f.entryIndex == f0.entryIndex && FileOk(content, f) && Remaining(content, f) == Remaining(content, f0)
        invariant bytes + Held(f0) == bytes0 + Held(f) && Held(f) >= Held(f0)
        invariant allowCurrentReserve || bytes <= BACKLOG || bytes == bytes0
        invariant f.chunk == f0.chunk && f.chunkPos == f0.chunkPos && (f == f0 || f.inflight != [])
        invariant f == f0 ==> bytes == bytes0
        invariant bytes <= BACKLOG + RESERVE && AddedUpTo(content, f0, f, bytes, allowCurrentReserve)
        decreases fileLen - f.nextSubmit
      {
        NextInFile(content, f);
        var len := Min(Min(fileLen - f.nextSubmit, REQUEST_SIZE), limit - bytes);
        SubmitKeeps(content, f, len);
        AddedStep(content, f0, f, bytes, allowCurrentReserve, len);
        f := Submitted(f, len);
        bytes := bytes + len;
      }
      AddedAll(content, f0, f, bytes, allowCurrentReserve);
      UpdateOk(entries, files, prefetchedBytes, cur, pos, f, bytes);
      files := files[pos := f];
      prefetchedBytes := bytes;
    }

    /** Opens files ahead and tops up the requests, so that the current file can always go on. */
    method PrimePrefetch()
      requires Sound()
      modifies this`files, this`prefetchedBytes, this`prefetchIndex
      ensures Valid() && Upcoming() == old(Upcoming())
    {
      hide Held, TotalHeld, FileOk, Remaining, FindFile, OthersHeld, Fresh, Rest, FilesOk, LensOk;
      FilesAre(entries, files, prefetchedBytes, current);
      while prefetchedBytes < BACKLOG && prefetchIndex < |entries| && |files| < MAX_OPEN_FILES
        invariant FilesOk(entries, files, prefetchedBytes, current)
        invariant Frugal(prefetchedBytes, |files|, current)
        invariant forall p :: 0 <= p < |files| ==> OpenOk(entries, files[p])
        invariant CurrentLeft(entries, files, current) == old(CurrentLeft(entries, files, current))
        decreases |entries| - prefetchIndex
      {
        if !entries[prefetchIndex].File? {
          prefetchIndex := prefetchIndex + 1;
          continue;
        }
        PushOk(entries, files, prefetchedBytes, current, prefetchIndex);
        FilesAre(entries, files + [Fresh(prefetchIndex)], prefetchedBytes, current);
        files := files + [Fresh(prefetchIndex)];
        prefetchIndex := prefetchIndex + 1;
        FillPrefetchQueue(|files| - 1, false, current);
        FilesAre(entries, files, prefetchedBytes, current);
      }
      if current.Some? {
        var pos := FindFile(files, current.value);
        CurrentIsOpen(entries, files, prefetchedBytes, current);
        FillPrefetchQueue(pos.value, true, current);
        FilesAre(entries, files, prefetchedBytes, current);
      }
      var index := 0;
      while index < |files|
        invariant index <= |files| && FilesOk(entries, files, prefetchedBytes, current)
        invariant Frugal(prefetchedBytes, |files|, current)
        invariant forall p :: 0 <= p < |files| ==> OpenOk(entries, files[p])
        invariant CurrentLeft(entries, files, current) == old(CurrentLeft(entries, files, current))
        invariant Flows(entries, files, current)
      {
        if prefetchedBytes >= BACKLOG {
          break;
        }
        if Some(files[index].entryIndex) != current {
          FillPrefetchQueue(index, false, current);
          FilesAre(entries, files, prefetchedBytes, current);
        }
        index := index + 1;
      }
    }

    /** The file of the next entry becomes the current one, opened now if it was not opened ahead. */
    method OpenCurrent(entryIndex: nat)
      requires current.None? && EntryIsFile(entries, entryIndex)
      requires FilesOk(entries, files, prefetchedBytes, None) && Frugal(prefetchedBytes, |files|, None)
      modifies this`files, this`prefetchedBytes, this`current
      ensures current == Some(entryIndex)
      ensures FilesOk(entries, files, prefetchedBytes, current) && Frugal(prefetchedBytes, |files|, current)
      ensures CurrentLeft(entries, files, current) == entries[entryIndex].content
    {
      hide FileOk, Remaining, FindFile, FilesOk, CurrentLeft;
      FilesAre(entries, files, prefetchedBytes, None);
      var found := FindFile(files, entryIndex);
      if found.None? {
        OpenLateOk(entries, files, prefetchedBytes, entryIndex);
        FilesAre(entries, [Fresh(entryIndex)] + files, prefetchedBytes, Some(entryIndex));
        files := [Fresh(entryIndex)] + files;
        FillPrefetchQueue(0, true, Some(entryIndex));
      } else {
        ChooseOk(entries, files, prefetchedBytes, entryIndex);
      }
      current := Some(entryIndex);
    }

    /** The head of the next record, or the end tag, once everything before it has been handed out. */
    method RefillPendingIfNeeded()
      requires Valid()
      modifies this
      ensures Valid() && Upcoming() == old(Upcoming())
      ensures old(pendingPos < |pending| || current.Some?) ==>
                pending == old(pending) && pendingPos == old(pendingPos) && current == old(current)
                && currentIndex == old(currentIndex)
      ensures old(pendingPos >= |pending| && current.None? && currentIndex <= |entries|) ==>
                pendingPos < |pending| && currentIndex == old(currentIndex) + 1
      ensures old(pendingPos >= |pending| && current.None? && currentIndex > |entries|) ==>
                Upcoming() == [] && pendingPos >= |pending| && current.None?
    {
      hide FileOk, Remaining, FindFile, FilesOk, CurrentLeft, LensOk, Record, RecordHead, Le;
      if pendingPos < |pending| || current.Some? {
        return;
      }
      FilesAre(entries, files, prefetchedBytes, current);
      NoCurrent(entries, files);
      assert pending[pendingPos..] == [];
      if currentIndex == |entries| {
        pending, pendingPos := [RECORD_END], 0;
        currentIndex := currentIndex + 1;
        return;
      }
      if currentIndex > |entries| {
        pending, pendingPos := [], 0;
        return;
      }
      var entry := entries[currentIndex];
      ghost var next := Rest(entries, currentIndex + 1);
      currentIndex := currentIndex + 1;
      pending, pendingPos := Head(entry), 0;
      RecordParts(entries, currentIndex - 1);
      assert pending[0..] == pending;
      if entry.File? {
        OpenCurrent(currentIndex - 1);
        assert Upcoming() == old(Upcoming());
        PrimePrefetch();
      }
    }

    /** The next piece of the current file, or its end. There is always one of the two: the reader never waits for
        something it has not asked for. */
    method ServeCurrent(room: nat) returns (data: seq<Octet>, finished: bool)
      requires Valid() && current.Some? && pendingPos >= |pending| && room > 0
      modifies this`files, this`prefetchedBytes, this`prefetchIndex, this`current
      ensures Valid() && (finished <==> current.None?)
      ensures finished ==> data == [] && Upcoming() == old(Upcoming())
      ensures !finished ==> 0 < |data| <= room && old(Upcoming()) == data + Upcoming() && current == old(current)
    {
      hide Held, TotalHeld, FileOk, Remaining, FindFile, FilesOk, LensOk, Rest, Answer;
      CurrentIsOpen(entries, files, prefetchedBytes, current);
      FilesAre(entries, files, prefetchedBytes, current);
      var pos := FindFile(files, current.value).value;
      var f := files[pos];
      assert OpenOk(entries, f);
      var content := entries[f.entryIndex].content;
      ghost var f0, bytes0 := f, prefetchedBytes;
      if f.chunkPos >= |f.chunk| {
        if f.inflight != [] {
          NextChunk(content, f);
          f := f.(chunk := Answer(content, f.inflight[0]), chunkPos := 0, inflight := f.inflight[1..]);
        } else if f.nextSubmit >= |content| {
          FullFile(content, f);
          CloseOk(entries, files, prefetchedBytes, current, pos);
          FilesAre(entries, files[..pos] + files[pos + 1..], prefetchedBytes, None);
          NoCurrent(entries, files[..pos] + files[pos + 1..]);
          files := files[..pos] + files[pos + 1..];
          current := None;
          PrimePrefetch();
          return [], true;
        }
      }
      ChunkRange(content, f);
      var take := Min(|f.chunk| - f.chunkPos, room);
      TakeChunk(content, f, take);
      HeldUpdate(files, pos, f);
      data := f.chunk[f.chunkPos..f.chunkPos + take];
      f := f.(chunkPos := f.chunkPos + take);
      BytesThere(entries, files, prefetchedBytes, current, pos);
      CurrentOk(entries, files, bytes0, current, pos, f, bytes0 - take);
      FilesAre(entries, files[pos := f], bytes0 - take, current);
      ghost var pendingRest := pending[pendingPos..];
      assert pendingRest == [];
      files := files[pos := f];
      prefetchedBytes := prefetchedBytes - take;
      assert data + Upcoming() == old(Upcoming());
      PrimePrefetch();
      return data, false;
    }

    method TakePending(room: nat) returns (data: seq<Octet>)
      requires Valid() && pendingPos < |pending| && room > 0
      modifies this`pendingPos
      ensures Valid() && 0 < |data| <= room && old(Upcoming()) == data + Upcoming()
    {
      hide FilesOk, LensOk, Flows, CurrentLeft, Rest, FindFile;
      var take := Min(|pending| - pendingPos, room);
      data := pending[pendingPos..pendingPos + take];
      assert pending[pendingPos..] == data + pending[pendingPos + take..];
      pendingPos := pendingPos + take;
      assert data + Upcoming() == old(Upcoming());
    }

    /** One read of up to `room` octets. It comes back short only at the end of the archive. */
    method Read(room: nat) returns (out: seq<Octet>)
      requires Valid()
      modifies this
      ensures Valid() && |out| <= room && old(Upcoming()) == out + Upcoming()
      ensures |out| < room ==> Upcoming() == []
    {
      hide FilesOk, LensOk, Flows, PDeflateArchiveReader.Upcoming;
      out := [];
      assert old(Upcoming()) == [] + Upcoming();
      while |out| < room
        invariant Valid() && |out| <= room && old(Upcoming()) == out + Upcoming()
        decreases |Upcoming()|, |entries| + 1 - currentIndex, if current.Some? then 1 else 0
      {
        if pendingPos < |pending| {
          var data := TakePending(room - |out|);
          Regroup(out, data, Upcoming());
          out := out + data;
          continue;
        }
        if current.Some? {
          var data, finished := ServeCurrent(room - |out|);
          Regroup(out, data, Upcoming());
          out := out + data;
          continue;
        }
        RefillPendingIfNeeded();
        if pendingPos >= |pending| && current.None? {
          break;
        }
      }
    }
  }

  lemma Regroup(a: seq<Octet>, b: seq<Octet>, c: seq<Octet>)
    ensures a + (b + c) == a + b + c && [] + c == c
  {
  }

  lemma FilesAre(entries: seq<Entry>, files: seq<OpenFile>, bytes: nat, current: Option<nat>)
    requires FilesOk(entries, files, bytes, current)
    ensures forall p :: 0 <= p < |files| ==> OpenOk(entries, files[p])
  {
    hide OpenOk, TotalHeld;
  }

  lemma CurrentIsOpen(entries: seq<Entry>, files: seq<OpenFile>, bytes: nat, current: Option<nat>)
    requires FilesOk(entries, files, bytes, current) && current.Some?
    ensures FindFile(files, current.value).Some? && CurrentPos(files, current) == FindFile(files, current.value)
  {
    hide OpenOk, TotalHeld, FindFile;
  }

  lemma NextInFile(content: seq<Octet>, f: OpenFile)
    requires FileOk(content, f)
    ensures f.nextSubmit <= |content|
  {
  }

  /** The reserve: a current file with nothing under way always has room for a request. */
  lemma CurrentHasRoom(entries: seq<Entry>, files: seq<OpenFile>, bytes: nat, current: Option<nat>, p: nat)
    requires FilesOk(entries, files, bytes, current) && CurrentPos(files, current) == Some(p)
    ensures files[p].inflight == [] ==> bytes < BACKLOG + RESERVE
  {
    hide TotalHeld, FindFile, Remaining;
    assert OpenOk(entries, files[p]);
  }

  lemma NoCurrent(entries: seq<Entry>, files: seq<OpenFile>)
    requires forall p :: 0 <= p < |files| ==> OpenOk(entries, files[p])
    ensures CurrentLeft(entries, files, None) == [] && Flows(entries, files, None)
  {
  }

  /** A record is its head and, for a file, its content. */
  lemma RecordParts(entries: seq<Entry>, i: nat)
    requires i < |entries|
    ensures var content := if entries[i].File? then entries[i].content else [];
            Rest(entries, i) == Head(entries[i]) + content + Rest(entries, i + 1) && |Head(entries[i])| > 0
  {
    hide Le, Rest;
    assert Rest(entries, i) == Record(entries[i]) + Rest(entries, i + 1) by {
      RestStep(entries, i);
    }
  }

  lemma RestStep(entries: seq<Entry>, i: nat)
    requires i < |entries|
    ensures Rest(entries, i) == Record(entries[i]) + Rest(entries, i + 1)
  {
  }

  lemma ChunkRange(content: seq<Octet>, f: OpenFile)
    requires FileOk(content, f)
    ensures f.chunkPos <= |f.chunk|
  {
  }

  lemma BytesThere(entries: seq<Entry>, files: seq<OpenFile>, bytes: nat, current: Option<nat>, p: nat)
    requires FilesOk(entries, files, bytes, current) && p < |files|
    ensures Held(files[p]) <= bytes
  {
    hide Held, TotalHeld, FindFile;
    HeldUpdate(files, p, files[p]);
  }

  // ---- Whole archives ----------------------------------------------------------------------------

  /** Reads of any sizes: together they are the beginning of the archive, and all of it once a read comes back short. */
  method ReadInPieces(entries: seq<Entry>, sizes: seq<nat>) returns (pieces: seq<seq<Octet>>)
    requires LensOk(entries)
    ensures |pieces| == |sizes| && Flatten(pieces) <= ArchiveBytes(entries)
    ensures forall i :: 0 <= i < |sizes| ==> |pieces[i]| <= sizes[i]
    ensures (exists i :: 0 <= i < |sizes| && |pieces[i]| < sizes[i]) ==> Flatten(pieces) == ArchiveBytes(entries)
  {
    hide LensOk, PDeflateArchiveReader.Upcoming, PDeflateArchiveReader.Valid, PDeflateArchiveReader.Sound;
    var r := new PDeflateArchiveReader(entries);
    pieces := [];
    Regroup([], [], r.Upcoming());
    r.ValidIsSound();
    for i := 0 to |sizes|
      invariant r.Valid() && r.Sound() && |pieces| == i && Flatten(pieces) + r.Upcoming() == ArchiveBytes(entries)
      invariant forall k :: 0 <= k < i ==> |pieces[k]| <= sizes[k]
      invariant (exists k :: 0 <= k < i && |pieces[k]| < sizes[k]) ==> r.Upcoming() == []
    {
      ghost var before := r.Upcoming();
      var piece := r.Read(sizes[i]);
      r.ValidIsSound();
      assert (pieces + [piece])[..i] == pieces;
      Regroup(Flatten(pieces), piece, r.Upcoming());
      pieces := pieces + [piece];
    }
  }
}
