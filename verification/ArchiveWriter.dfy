/** The incremental archive parser: it takes an archive in pieces and hands out directories and file fragments. */
module ArchiveWriter {
  import opened Octets
  import opened ArchiveFormat

  /** A piece of a file's content for the parallel writer. */
  datatype Fragment = Fragment(offset: nat, data: seq<Octet>)

  datatype Made = MadeDir(path: seq<Octet>) | MadeFile(path: seq<Octet>, len: nat, fragments: seq<Fragment>)

  datatype WriteState =
    | AtHeader
    | RecordTag
    | RecordPathLen(tag: Octet)
    | RecordPath(tag: Octet, pathLen: nat)
    | RecordFileLen(path: seq<Octet>)
    | RecordFileData(fileId: nat, fileOffset: nat, remaining: nat)
    | AtEnd

  datatype Status = More | Waiting | Rejected(error: Error)

  datatype Outcome = Accepted | Refused(error: Error)

  // ---- What has been made ------------------------------------------------------------------------

  function Content(fragments: seq<Fragment>): seq<Octet> {
    if fragments == [] then [] else Content(fragments[..|fragments| - 1]) + fragments[|fragments| - 1].data
  }

  /** The fragments lie one behind the other from offset 0 on, and none is empty. */
  predicate Tiles(fragments: seq<Fragment>) {
    forall k :: 0 <= k < |fragments| ==> fragments[k].offset == |Content(fragments[..k])| && fragments[k].data != []
  }

  function EntryOf(m: Made): Entry {
    match m
    case MadeDir(path) => Dir(path)
    case MadeFile(path, len, fragments) => File(path, len, Content(fragments))
  }

  function Entries(made: seq<Made>): (r: seq<Entry>)
    ensures |r| == |made|
  {
    seq(|made|, i requires 0 <= i < |made| => EntryOf(made[i]))
  }

  predicate AllTiled(made: seq<Made>) {
    forall i :: 0 <= i < |made| && made[i].MadeFile? ==> Tiles(made[i].fragments)
  }

  function PhaseOf(state: WriteState): Phase {
    match state
    case AtHeader => Header
    case RecordTag => Tag
    case RecordPathLen(tag) => PathLen(tag)
    case RecordPath(tag, len) => Path(tag, len)
    case RecordFileLen(path) => FileLen(path)
    case RecordFileData(_, _, remaining) => Data(remaining)
    case AtEnd => Finished
  }

  /** The octet-by-octet reader that corresponds to a parser state and its buffer. */
  function ReaderOf(accepts: Accepts, state: WriteState, made: seq<Made>, buffer: seq<Octet>): Reader {
    FeedAll(accepts, Settle(accepts, Reader(PhaseOf(state), [], Entries(made))), buffer)
  }

  /** Data goes to the file made last, at the offset reached so far. */
  predicate InFile(state: WriteState, made: seq<Made>) {
    state.RecordFileData? ==>
      && state.fileId == |made| - 1 && made[state.fileId].MadeFile?
      && state.fileOffset == |Content(made[state.fileId].fragments)|
  }

  /** The parser waits for more octets. */
  predicate Waits(state: WriteState, buffer: seq<Octet>) {
    match state
    case RecordFileData(_, _, remaining) => remaining > 0 && buffer == []
    case AtEnd => true
    case _ => |buffer| < Need(PhaseOf(state))
  }

  lemma WaitingReader(accepts: Accepts, state: WriteState, made: seq<Made>, buffer: seq<Octet>)
    requires Waits(state, buffer)
    ensures ReaderOf(accepts, state, made, buffer) == Reader(PhaseOf(state), buffer, Entries(made))
  {
    hide Complete, Entries, FeedAll;
    var r := Reader(PhaseOf(state), [], Entries(made));
    assert [] + buffer == buffer;
    if state.AtEnd? {
      StaysFinished(accepts, r, buffer);
    } else if state.RecordFileData? {
      FeedNone(accepts, r);
    } else {
      Gather(accepts, r, buffer);
    }
  }

  /** Taking a complete field off the buffer. */
  lemma FieldStep(accepts: Accepts, state: WriteState, made: seq<Made>, buffer: seq<Octet>)
    requires IsField(PhaseOf(state)) && |buffer| >= Need(PhaseOf(state))
    ensures var n, phase := Need(PhaseOf(state)), PhaseOf(state);
            ReaderOf(accepts, state, made, buffer) ==
            FeedAll(accepts, Settle(accepts, Complete(accepts, phase, buffer[..n], Entries(made))), buffer[n..])
  {
    hide Complete, Entries, FeedAll, Settle;
    var n, phase := Need(PhaseOf(state)), PhaseOf(state);
    var r := Reader(phase, [], Entries(made));
    assert buffer == buffer[..n] + buffer[n..];
    if n > 0 {
      SettlesAlready(accepts, phase, Entries(made));
      FeedInPieces(accepts, r, buffer[..n], buffer[n..]);
      FillField(accepts, phase, buffer[..n], Entries(made));
    } else {
      EmptyPath(accepts, phase, Entries(made));
      assert buffer[..n] == [] && buffer[n..] == buffer;
    }
  }

  lemma SettlesAlready(accepts: Accepts, phase: Phase, out: seq<Entry>)
    requires IsField(phase) && Need(phase) > 0
    ensures Settle(accepts, Reader(phase, [], out)) == Reader(phase, [], out)
  {
  }

  lemma EmptyPath(accepts: Accepts, phase: Phase, out: seq<Entry>)
    requires IsField(phase) && Need(phase) == 0
    ensures Settle(accepts, Reader(phase, [], out)) == Settle(accepts, Complete(accepts, phase, [], out))
  {
  }

  lemma AddToEntries(made: seq<Made>, id: nat, fragment: Fragment)
    requires id == |made| - 1 && made[id].MadeFile?
    ensures var f := made[id].(fragments := made[id].fragments + [fragment]);
            Entries(made[id := f]) == AddData(Entries(made), fragment.data)
  {
    var f := made[id].(fragments := made[id].fragments + [fragment]);
    assert f.fragments[..|f.fragments| - 1] == made[id].fragments;
    assert EntryOf(f).content == EntryOf(made[id]).content + fragment.data;
  }

  /** Taking data of the current file off the buffer. */
  lemma DataStep(accepts: Accepts, state: WriteState, made: seq<Made>, buffer: seq<Octet>, take: nat)
    requires state.RecordFileData? && InFile(state, made) && 0 < take <= state.remaining && take <= |buffer|
    ensures var id := state.fileId;
            var f := made[id].(fragments := made[id].fragments + [Fragment(state.fileOffset, buffer[..take])]);
            ReaderOf(accepts, state, made, buffer) ==
            FeedAll(accepts, Settle(accepts, Reader(Data(state.remaining - take), [], Entries(made[id := f]))),
                buffer[take..])
  {
    hide Complete, Entries, FeedAll, AddData, Content;
    var r := Reader(Data(state.remaining), [], Entries(made));
    assert buffer == buffer[..take] + buffer[take..];
    FeedInPieces(accepts, r, buffer[..take], buffer[take..]);
    TakeData(accepts, state.remaining, buffer[..take], Entries(made));
    AddToEntries(made, state.fileId, Fragment(state.fileOffset, buffer[..take]));
  }

  lemma TilesMore(fragments: seq<Fragment>, data: seq<Octet>)
    requires Tiles(fragments) && data != []
    ensures Tiles(fragments + [Fragment(|Content(fragments)|, data)])
    ensures |Content(fragments + [Fragment(|Content(fragments)|, data)])| == |Content(fragments)| + |data|
  {
    var more := fragments + [Fragment(|Content(fragments)|, data)];
    assert more[..|fragments|] == fragments;
    forall k | 0 <= k < |more|
      ensures more[k].offset == |Content(more[..k])| && more[k].data != []
    {
      assert k < |fragments| ==> more[..k] == fragments[..k];
    }
  }

  lemma EntriesMore(made: seq<Made>, m: Made)
    ensures Entries(made + [m]) == Entries(made) + [EntryOf(m)]
  {
  }

  class PDeflateArchiveWriter {
    const accepts: Accepts
    var buffer: seq<Octet>
    var state: WriteState
    var made: seq<Made>

    ghost predicate Valid()
      reads this
    {
      AllTiled(made) && InFile(state, made)
    }

    /** What the octets taken so far mean. */
    ghost function Meaning(): Reader
      reads this
    {
      ReaderOf(accepts, state, made, buffer)
    }

    constructor (accepts: Accepts)
      ensures this.accepts == accepts && Valid() && Meaning() == Start()
    {
      this.accepts := accepts;
      buffer, state, made := [], AtHeader, [];
      new;
      FeedNone(accepts, Start());
      assert Entries([]) == [];
    }

    /** How far the parser can still go without more octets. */
    function Fuel(): nat
      reads this
    {
      match state
      case RecordPath(_, _) => 2
      case RecordFileLen(_) => 1
      case RecordFileData(_, _, _) => 1
      case _ => 0
    }

    /** A field of fixed length, or a path. */
    method FieldOnce() returns (r: Status)
      requires Valid() && IsField(PhaseOf(state)) && |buffer| >= Need(PhaseOf(state))
      modifies this
      ensures Valid() && !r.Waiting?
      ensures r.More? ==> Meaning() == old(Meaning()) && |buffer| == |old(buffer)| - Need(PhaseOf(old(state)))
      ensures r.More? && Need(PhaseOf(old(state))) == 0 ==> Fuel() < old(Fuel())
      ensures r.Rejected? ==> old(Meaning()).phase == Failed(r.error)
    {
      hide FeedAll, Entries, FromLe, AllTiled, Settle, Content;
      ghost var phase, n := PhaseOf(state), Need(PhaseOf(state));
      ghost var before, made0 := buffer, made;
      FieldStep(accepts, state, made, buffer);
      ghost var next := Complete(accepts, phase, buffer[..n], Entries(made));
      FailureStays(accepts, next, buffer[n..]);
      match state {
        case AtHeader =>
          if buffer[..4] != MAGIC {
            return Rejected(BadMagic);
          }
          if buffer[4] != VERSION {
            return Rejected(BadVersion);
          }
          buffer, state := buffer[5..], RecordTag;
        case RecordTag =>
          var tag := buffer[0];
          buffer := buffer[1..];
          if tag == RECORD_END {
            state := AtEnd;
          } else if tag == RECORD_FILE || tag == RECORD_DIR {
            state := RecordPathLen(tag);
          } else {
            return Rejected(BadTag);
          }
        case RecordPathLen(tag) =>
          state := RecordPath(tag, FromLe(buffer[..4]));
          buffer := buffer[4..];
        case RecordPath(tag, pathLen) =>
          var path := buffer[..pathLen];
          buffer := buffer[pathLen..];
          if !accepts(path) {
            return Rejected(BadPath);
          }
          if tag == RECORD_DIR {
            TiledMore(made, MadeDir(path));
            EntriesMore(made, MadeDir(path));
            made := made + [MadeDir(path)];
            state := RecordTag;
          } else {
            state := RecordFileLen(path);
          }
        case RecordFileLen(path) =>
          var fileLen := FromLe(buffer[..8]);
          buffer := buffer[8..];
          NoFragments(path, fileLen);
          TiledMore(made, MadeFile(path, fileLen, []));
          EntriesMore(made, MadeFile(path, fileLen, []));
          made := made + [MadeFile(path, fileLen, [])];
          state := RecordFileData(|made| - 1, 0, fileLen);
      }
      return More;
    }

    /** File data: a fragment at the offset reached so far. */
    method DataOnce() returns (r: Status)
      requires Valid() && state.RecordFileData?
      modifies this
      ensures Valid() && !r.Rejected?
      ensures r.More? ==> Meaning() == old(Meaning()) && |buffer| <= |old(buffer)|
      ensures r.More? && |buffer| == |old(buffer)| ==> Fuel() < old(Fuel())
      ensures r.Waiting? ==> Waits(state, buffer) && Meaning() == old(Meaning())
    {
      hide FeedAll, Entries, Content, Tiles;
      var id, offset, remaining := state.fileId, state.fileOffset, state.remaining;
      if remaining == 0 {
        state := RecordTag;
        return More;
      }
      if buffer == [] {
        return Waiting;
      }
      var take := if remaining <= |buffer| then remaining else |buffer|;
      DataStep(accepts, state, made, buffer, take);
      var fragment := Fragment(offset, buffer[..take]);
      assert Tiles(made[id].fragments);
      TilesMore(made[id].fragments, buffer[..take]);
      made := made[id := made[id].(fragments := made[id].fragments + [fragment])];
      buffer := buffer[take..];
      state := RecordFileData(id, offset + take, remaining - take);
      if remaining == take {
        state := RecordTag;
      }
      return More;
    }

    /** Goes on until more octets are needed. What the octets mean does not change; the parser fails exactly
        when they are not the beginning of an archive. */
    method ProcessBuffer() returns (r: Status)
      requires Valid()
      modifies this
      ensures Valid() && !r.More?
      ensures r.Waiting? ==> Waits(state, buffer) && Meaning() == old(Meaning())
      ensures r.Rejected? ==> old(Meaning()).phase == Failed(r.error)
    {
      hide FeedAll, Entries, Settle, AllTiled, InFile, ReaderOf;
      while true
        invariant Valid() && Meaning() == old(Meaning())
        decreases |buffer|, Fuel()
      {
        if state.AtEnd? {
          return Waiting;
        }
        if state.RecordFileData? {
          r := DataOnce();
        } else if |buffer| < Need(PhaseOf(state)) {
          return Waiting;
        } else {
          r := FieldOnce();
        }
        if !r.More? {
          return;
        }
      }
    }

    /** One piece more. */
    method Write(piece: seq<Octet>) returns (r: Status)
      requires Valid()
      modifies this
      ensures Valid() && !r.More?
      ensures r.Waiting? ==> Meaning() == FeedAll(accepts, old(Meaning()), piece)
      ensures r.Rejected? ==> FeedAll(accepts, old(Meaning()), piece).phase == Failed(r.error)
    {
      hide FeedAll, Entries, Settle, AllTiled, InFile;
      FeedInPieces(accepts, Settle(accepts, Reader(PhaseOf(state), [], Entries(made))), buffer, piece);
      buffer := buffer + piece;
      r := ProcessBuffer();
    }

    /** The end of the input. */
    method Finish() returns (r: Outcome)
      requires Valid()
      modifies this
      ensures Valid() && r == Verdict(old(Meaning()))
      ensures r.Accepted? ==> Entries(made) == old(Meaning()).out
    {
      hide FeedAll, Entries, Settle, AllTiled, ReaderOf;
      var status := ProcessBuffer();
      if status.Rejected? {
        return Refused(status.error);
      }
      WaitingReader(accepts, state, made, buffer);
      if state.AtEnd? {
        return if buffer == [] then Accepted else Refused(TrailingBytes);
      }
      if state.RecordFileData? {
        return Refused(if state.remaining == 0 then MissingEnd else TruncatedFile);
      }
      return Refused(Truncated);
    }
  }

  /** What the end of the input means in each state of the octet-by-octet reader. */
  function Verdict(r: Reader): Outcome {
    match r.phase
    case Failed(e) => Refused(e)
    case Finished => if r.got == [] then Accepted else Refused(TrailingBytes)
    case Data(_) => Refused(TruncatedFile)
    case _ => Refused(Truncated)
  }

  lemma FailureStays(accepts: Accepts, r: Reader, s: seq<Octet>)
    ensures r.phase.Failed? ==> FeedAll(accepts, Settle(accepts, r), s).phase == r.phase
  {
    hide FeedAll;
    if r.phase.Failed? {
      StaysFailed(accepts, r, s);
    }
  }

  lemma NoFragments(path: seq<Octet>, len: nat)
    ensures EntryOf(MadeFile(path, len, [])) == File(path, len, []) && Content([]) == []
    ensures Tiles([])
  {
  }

  lemma TiledMore(made: seq<Made>, m: Made)
    requires AllTiled(made) && (m.MadeFile? ==> Tiles(m.fragments))
    ensures AllTiled(made + [m])
  {
  }

  // ---- Any cutting -------------------------------------------------------------------------------

  lemma {:induction false} FlattenMore(pieces: seq<seq<Octet>>, i: nat)
    requires i < |pieces|
    ensures Flatten(pieces[..i + 1]) == Flatten(pieces[..i]) + pieces[i]
  {
    assert pieces[..i + 1][..i] == pieces[..i];
  }

  lemma {:induction false} FlattenSplit(pieces: seq<seq<Octet>>, i: nat) returns (rest: seq<Octet>)
    requires i <= |pieces|
    ensures Flatten(pieces) == Flatten(pieces[..i]) + rest
    decreases |pieces| - i
  {
    if i < |pieces| {
      var more := FlattenSplit(pieces, i + 1);
      FlattenMore(pieces, i);
      rest := pieces[i] + more;
      assert Flatten(pieces[..i]) + pieces[i] + more == Flatten(pieces[..i]) + rest;
    } else {
      rest := [];
      assert pieces[..i] == pieces;
    }
  }

  /** However an archive is cut into writes, the parser accepts exactly the archives of the format, makes their
      entries, and the fragments of every file tile its content. */
  method ReadArchive(accepts: Accepts, pieces: seq<seq<Octet>>) returns (r: Outcome, made: seq<Made>)
    ensures r.Accepted? ==> EntriesOk(accepts, Entries(made)) && Flatten(pieces) == ArchiveBytes(Entries(made))
    ensures r.Accepted? ==> AllTiled(made)
    ensures r.Refused? ==> forall entries :: EntriesOk(accepts, entries) ==> Flatten(pieces) != ArchiveBytes(entries)
  {
    hide FeedAll, Entries, Settle, AllTiled, InFile, EntriesOk, ArchiveBytes, PDeflateArchiveWriter.Meaning;
    ghost var total := FeedAll(accepts, Start(), Flatten(pieces));
    var w := new PDeflateArchiveWriter(accepts);
    made := [];
    FeedNone(accepts, Start());
    assert Flatten(pieces[..0]) == [];
    for i := 0 to |pieces|
      invariant w.Valid() && w.accepts == accepts && w.Meaning() == FeedAll(accepts, Start(), Flatten(pieces[..i]))
    {
      FlattenMore(pieces, i);
      FeedInPieces(accepts, Start(), Flatten(pieces[..i]), pieces[i]);
      var status := w.Write(pieces[i]);
      if status.Rejected? {
        ghost var rest := FlattenSplit(pieces, i + 1);
        FeedInPieces(accepts, Start(), Flatten(pieces[..i + 1]), rest);
        StaysFailed(accepts, FeedAll(accepts, Start(), Flatten(pieces[..i + 1])), rest);
        NotAnArchive(accepts, Flatten(pieces));
        return Refused(status.error), [];
      }
    }
    assert pieces[..|pieces|] == pieces;
    r := w.Finish();
    if r.Accepted? {
      made := w.made;
      AcceptedIff(accepts, Flatten(pieces), total.out);
    } else {
      NotAnArchive(accepts, Flatten(pieces));
    }
  }

  lemma NotAnArchive(accepts: Accepts, s: seq<Octet>)
    requires Verdict(FeedAll(accepts, Start(), s)).Refused?
    ensures forall entries :: EntriesOk(accepts, entries) ==> s != ArchiveBytes(entries)
  {
    hide FeedAll, EntriesOk, ArchiveBytes;
    forall entries | EntriesOk(accepts, entries)
      ensures s != ArchiveBytes(entries)
    {
      AcceptedIff(accepts, s, entries);
    }
  }
}
