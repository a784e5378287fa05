/** The indexed parallel decoder as a step system: one producer, workers that decode chunks and submit positional
    writes, and writes that land piece by piece in any order. */
module ParallelDecode {
  import opened Options
  import opened Crc
  import opened Totals

  // ---- Output ranges -----------------------------------------------------------------------------

  function Offset(parts: seq<seq<Byte>>, i: nat): nat
    requires i <= |parts|
  {
    |Concat(parts, i)|
  }

  datatype OffsetError = SizeMismatch | DataTooLarge

  datatype Offsets = Offsets(at: seq<nat>) | BadIndex(error: OffsetError)

  const U64_MAX: nat := 0xFFFF_FFFF_FFFF_FFFF

  lemma {:induction false} TotalGrows(lens: seq<nat>, i: nat)
    requires i <= |lens|
    ensures Total(lens[..i]) <= Total(lens)
  {
    if i < |lens| {
      TotalGrows(lens[..|lens| - 1], i);
      assert lens[..|lens| - 1][..i] == lens[..i];
    } else {
      assert lens[..i] == lens;
    }
  }

  /** Where each chunk goes: behind all earlier ones. The index is refused when its sizes do not add up. */
  method OutputOffsets(rawLens: seq<nat>, uncompressedSize: nat) returns (r: Offsets)
    ensures r == BadIndex(DataTooLarge) <==> Total(rawLens) > 0xFFFF_FFFF_FFFF_FFFF
    ensures r.Offsets? <==> Total(rawLens) == uncompressedSize <= 0xFFFF_FFFF_FFFF_FFFF
    ensures r.Offsets? ==> |r.at| == |rawLens| && forall i :: 0 <= i < |rawLens| ==> r.at[i] == Total(rawLens[..i])
  {
    var at: seq<nat>, next: nat := [], 0;
    for i := 0 to |rawLens|
      invariant next == Total(rawLens[..i]) <= U64_MAX && |at| == i
      invariant forall k :: 0 <= k < i ==> at[k] == Total(rawLens[..k])
    {
      at := at + [next];
      assert rawLens[..i + 1][..i] == rawLens[..i];
      if next + rawLens[i] > U64_MAX {
        TotalGrows(rawLens, i + 1);
        return BadIndex(DataTooLarge);
      }
      next := next + rawLens[i];
    }
    assert rawLens[..|rawLens|] == rawLens;
    return if next != uncompressedSize then BadIndex(SizeMismatch) else Offsets(at);
  }

  /** Ranges of different chunks do not overlap and stay within the file. */
  lemma {:induction false} RangesApart(rawLens: seq<nat>, i: nat, j: nat)
    requires i < j <= |rawLens|
    ensures Total(rawLens[..i]) + rawLens[i] <= Total(rawLens[..j])
    decreases j
  {
    assert rawLens[..j][..j - 1] == rawLens[..j - 1];
    if i + 1 < j {
      RangesApart(rawLens, i, j - 1);
    }
  }

  /** Where the lengths of the index are those of the decoded chunks, the offsets are their places in the
      concatenation. */
  lemma {:induction false} OffsetIsTotal(parts: seq<seq<Byte>>, rawLens: seq<nat>, i: nat)
    requires i <= |parts| == |rawLens| && forall k :: 0 <= k < i ==> rawLens[k] == |parts[k]|
    ensures Offset(parts, i) == Total(rawLens[..i])
  {
    if i > 0 {
      OffsetIsTotal(parts, rawLens, i - 1);
      assert rawLens[..i][..i - 1] == rawLens[..i - 1];
    }
  }

  // ---- States and steps --------------------------------------------------------------------------

  /** What the prepared chunks decompress to and their sizes, the chunks' lengths in the index with the output offsets
      and the file size that follow from them, and the queue limit in bytes. */
  datatype Job = Job(parts: seq<seq<Byte>>, prepared: seq<nat>, rawLens: seq<nat>, at: seq<nat>, size: nat,
                     workers: nat, queueCap: nat)
  {
    predicate Valid() {
      && |prepared| == |parts| == |rawLens| == |at| && workers >= 1 && queueCap >= 1
      && Total(rawLens) == size && forall i :: 0 <= i < |at| ==> at[i] == Total(rawLens[..i])
    }

    /** The index has the length of every decoded chunk. */
    predicate LengthsRight() {
      |rawLens| == |parts| && forall i :: 0 <= i < |parts| ==> rawLens[i] == |parts[i]|
    }

    /** The worker's check of a decoded chunk. */
    predicate LengthOk(i: nat) {
      i < |parts| && i < |rawLens| && i < |at| && rawLens[i] == |parts[i]|
    }

    function Size(i: nat): nat {
      if i < |prepared| then prepared[i] else 0
    }
  }

  datatype WorkerPc = Idle | Decoding(index: nat) | Submitted(index: nat) | Done

  datatype State = State(
    pushed: nat,
    closed: bool,
    queue: seq<nat>,
    queuedBytes: nat,
    workers: seq<WorkerPc>,
    landed: map<nat, nat>,
    file: seq<Byte>,
    slots: seq<Option<Slot>>,
    fault: bool)

  datatype Step =
    | PushNext
    | Close
    | Pop(w: nat)
    | Leave(w: nat)
    | Submit(w: nat)
    | FillSlot(w: nat)
    | WriteSome(index: nat, count: nat)

  /** The file starts with its final length; what it holds does not matter. */
  ghost predicate Init(j: Job, s: State) {
    && s.pushed == 0 && !s.closed && s.queue == [] && s.queuedBytes == 0
    && s.workers == seq(j.workers, i => Idle)
    && s.landed == map[] && |s.file| == j.size
    && s.slots == seq(|j.parts|, i => None) && !s.fault
  }

  function Overlay(file: seq<Byte>, at: nat, data: seq<Byte>): (r: seq<Byte>)
    ensures |r| == |file|
  {
    if at + |data| <= |file| then file[..at] + data + file[at + |data|..] else file
  }

  /** After a fault nothing happens any more. */
  predicate Enabled(j: Job, s: State, step: Step) {
    !s.fault &&
    match step
    case PushNext => s.pushed < |j.parts| && s.queuedBytes < j.queueCap
    case Close => s.pushed == |j.parts| && !s.closed
    case Pop(w) => w < |s.workers| && s.workers[w].Idle? && s.queue != []
    case Leave(w) => w < |s.workers| && s.workers[w].Idle? && s.queue == [] && s.closed
    case Submit(w) => w < |s.workers| && s.workers[w].Decoding?
    case FillSlot(w) => w < |s.workers| && s.workers[w].Submitted?
    case WriteSome(i, count) =>
      i in s.landed && j.LengthOk(i) && count > 0 && s.landed[i] + count <= |j.parts[i]|
  }

  function SatSub(a: nat, b: nat): nat {
    if a >= b then a - b else 0
  }

  function Apply(j: Job, s: State, step: Step): State
    requires Enabled(j, s, step)
  {
    match step
    case PushNext =>
      s.(pushed := s.pushed + 1, queue := s.queue + [s.pushed], queuedBytes := s.queuedBytes + j.Size(s.pushed))
    case Close => s.(closed := true)
    case Pop(w) =>
      s.(workers := s.workers[w := Decoding(s.queue[0])], queue := s.queue[1..],
         queuedBytes := SatSub(s.queuedBytes, j.Size(s.queue[0])))
    case Leave(w) => s.(workers := s.workers[w := Done])
    case Submit(w) =>
      var i := s.workers[w].index;
      if !j.LengthOk(i) || i in s.landed then s.(fault := true)
      else s.(workers := s.workers[w := Submitted(i)], landed := s.landed[i := 0])
    case FillSlot(w) =>
      var i := s.workers[w].index;
      if i >= |s.slots| || !j.LengthOk(i) || s.slots[i].Some? then s.(fault := true)
      else
        s.(workers := s.workers[w := Idle], slots := s.slots[i := Some(Slot(Crc32(j.parts[i]), j.rawLens[i]))])
    case WriteSome(i, count) =>
      var d := s.landed[i];
      s.(landed := s.landed[i := d + count],
         file := Overlay(s.file, j.at[i] + d, j.parts[i][d..d + count]))
  }

  ghost predicate Path(j: Job, s: State, steps: seq<Step>, s': State)
    decreases |steps|
  {
    if steps == [] then s' == s else Enabled(j, s, steps[0]) && Path(j, Apply(j, s, steps[0]), steps[1..], s')
  }

  // ---- What every step keeps ---------------------------------------------------------------------

  function Popped(s: State): int {
    s.pushed - |s.queue|
  }

  /** The queue holds the chunks from `Popped` to `pushed` in order, and its byte count is right. */
  ghost predicate QueueOk(j: Job, s: State) {
    && |s.queue| <= s.pushed <= |j.parts| && (s.closed ==> s.pushed == |j.parts|)
    && (forall k :: 0 <= k < |s.queue| ==> s.queue[k] == Popped(s) + k)
    && s.queuedBytes == QueueBytes(j, s.queue)
  }

  function QueueBytes(j: Job, queue: seq<nat>): nat {
    if queue == [] then 0 else j.Size(queue[0]) + QueueBytes(j, queue[1..])
  }

  /** A worker's chunk has left the queue; it is submitted once, and its slot is filled once. */
  ghost predicate WorkerOk(j: Job, s: State, w: nat)
    requires w < |s.workers|
  {
    match s.workers[w]
    case Idle => true
    case Decoding(i) => i < Popped(s) && i !in s.landed
    case Submitted(i) => i in s.landed && i < |s.slots| && s.slots[i].None?
    case Done => s.closed && s.queue == []
  }

  ghost predicate WorkersOk(j: Job, s: State) {
    && |s.workers| == j.workers
    && (forall w :: 0 <= w < |s.workers| ==> WorkerOk(j, s, w))
    && forall v, w :: 0 <= v < w < |s.workers| && Holds(s.workers[v]) && Holds(s.workers[w]) ==>
                        s.workers[v].index != s.workers[w].index
  }

  predicate Holds(pc: WorkerPc) {
    pc.Decoding? || pc.Submitted?
  }

  /** Every chunk that has left the queue is submitted or with a worker; its slot is filled or a worker fills it. */
  ghost predicate Tracked(j: Job, s: State, i: nat) {
    && (i in s.landed || exists w :: 0 <= w < |s.workers| && s.workers[w] == Decoding(i))
    && (i in s.landed ==> i < |s.slots|)
    && (i in s.landed && s.slots[i].None? ==> exists w :: 0 <= w < |s.workers| && s.workers[w] == Submitted(i))
  }

  ghost predicate ChunksOk(j: Job, s: State) {
    && |s.slots| == |j.parts| && (s.fault ==> !j.LengthsRight())
    && (forall i: nat :: i < Popped(s) ==> Tracked(j, s, i))
    && (forall i :: i in s.landed ==> i < Popped(s) && j.LengthOk(i))
    && forall i :: 0 <= i < |s.slots| && s.slots[i].Some? ==>
                     i in s.landed && s.slots[i] == Some(Slot(Crc32(j.parts[i]), |j.parts[i]|))
  }

  /** What has landed of a chunk stands at its place. */
  ghost predicate InPlace(j: Job, file: seq<Byte>, i: nat, d: nat)
    requires j.LengthOk(i)
  {
    d <= |j.parts[i]| && j.at[i] + d <= |file| && file[j.at[i]..j.at[i] + d] == j.parts[i][..d]
  }

  ghost predicate FileOk(j: Job, s: State) {
    && |s.file| == j.size
    && forall i :: i in s.landed ==> j.LengthOk(i) && InPlace(j, s.file, i, s.landed[i])
  }

  ghost predicate Inv(j: Job, s: State) {
    j.Valid() && QueueOk(j, s) && WorkersOk(j, s) && ChunksOk(j, s) && FileOk(j, s)
  }

  lemma InitInv(j: Job, s: State)
    requires j.Valid() && Init(j, s)
    ensures Inv(j, s)
  {
    hide Concat, Crc32;
  }

  lemma {:induction false} QueueBytesAppend(j: Job, queue: seq<nat>, i: nat)
    ensures QueueBytes(j, queue + [i]) == QueueBytes(j, queue) + j.Size(i)
    decreases |queue|
  {
    if queue != [] {
      assert (queue + [i])[1..] == queue[1..] + [i];
      QueueBytesAppend(j, queue[1..], i);
    } else {
      assert [i][1..] == [];
      assert queue + [i] == [i];
    }
  }

  lemma QueueStep(j: Job, s: State, step: Step)
    requires Inv(j, s) && Enabled(j, s, step)
    ensures QueueOk(j, Apply(j, s, step))
  {
    hide Concat, Crc32, WorkersOk, ChunksOk, FileOk, Overlay;
    if step.PushNext? {
      QueueBytesAppend(j, s.queue, s.pushed);
    }
  }

  lemma WorkersStep(j: Job, s: State, step: Step)
    requires Inv(j, s) && Enabled(j, s, step)
    ensures WorkersOk(j, Apply(j, s, step)) && (Apply(j, s, step).fault ==> !j.LengthsRight())
  {
    hide Concat, Crc32, FileOk, Overlay, QueueBytes, Job.Size, Offset;
    var s' := Apply(j, s, step);
    if IsWorkerStep(step) {
      assert WorkerOk(j, s, step.w);
    }
    forall w | 0 <= w < |s'.workers|
      ensures WorkerOk(j, s', w)
    {
      assert WorkerOk(j, s, w);
    }
    if step.Pop? {
      PopIsNew(j, s, step.w);
    }
  }

  predicate IsWorkerStep(step: Step) {
    step.Pop? || step.Leave? || step.Submit? || step.FillSlot?
  }

  lemma PopIsNew(j: Job, s: State, w: nat)
    requires Inv(j, s) && Enabled(j, s, Pop(w))
    ensures s.queue[0] == Popped(s) && s.queue[0] !in s.landed
    ensures forall v :: 0 <= v < |s.workers| && Holds(s.workers[v]) ==> s.workers[v].index != s.queue[0]
  {
    hide Concat, Crc32, FileOk, QueueBytes;
    forall v | 0 <= v < |s.workers| && Holds(s.workers[v])
      ensures s.workers[v].index != s.queue[0]
    {
      assert WorkerOk(j, s, v);
    }
  }

  lemma ChunksStep(j: Job, s: State, step: Step)
    requires Inv(j, s) && Enabled(j, s, step)
    ensures ChunksOk(j, Apply(j, s, step))
  {
    hide Concat, Crc32, FileOk, Overlay, QueueBytes, Job.Size, Offset, Tracked;
    WorkersStep(j, s, step);
    var s' := Apply(j, s, step);
    if IsWorkerStep(step) {
      assert WorkerOk(j, s, step.w);
    }
    forall i: nat | i < Popped(s')
      ensures Tracked(j, s', i)
    {
      TrackedStep(j, s, step, i);
    }
  }

  lemma TrackedStep(j: Job, s: State, step: Step, i: nat)
    requires Inv(j, s) && Enabled(j, s, step) && i < Popped(Apply(j, s, step))
    ensures Tracked(j, Apply(j, s, step), i)
  {
    hide Concat, Crc32, FileOk, Overlay, QueueBytes, Job.Size, Offset;
    WorkersStep(j, s, step);
    var s' := Apply(j, s, step);
    if IsWorkerStep(step) {
      assert WorkerOk(j, s, step.w);
    }
    if i < Popped(s) {
      assert Tracked(j, s, i);
      forall w | 0 <= w < |s.workers| && s.workers[w] == Decoding(i)
        ensures i in s'.landed || s'.workers[w] == Decoding(i)
      {
      }
      forall w | 0 <= w < |s.workers| && s.workers[w] == Submitted(i)
        ensures s'.slots[i].Some? || s'.workers[w] == Submitted(i)
      {
      }
    }
    if step.Pop? && i == Popped(s) {
      PopIsNew(j, s, step.w);
      assert s'.workers[step.w] == Decoding(i);
    }
    if step.Submit? && !s'.fault && s.workers[step.w].index == i {
      assert s'.workers[step.w] == Submitted(i);
    }
  }

  // ---- What is in the file -----------------------------------------------------------------------

  /** A write of another chunk leaves this one alone. */
  lemma OverlayElsewhere(j: Job, file: seq<Byte>, i: nat, d: nat, at: nat, data: seq<Byte>)
    requires j.LengthOk(i) && InPlace(j, file, i, d)
    requires at + |data| <= j.at[i] || j.at[i] + d <= at
    ensures InPlace(j, Overlay(file, at, data), i, d)
  {
    var o := j.at[i];
    var after := Overlay(file, at, data);
    assert after[o..o + d] == file[o..o + d];
  }

  lemma OverlayHere(j: Job, file: seq<Byte>, i: nat, d: nat, count: nat)
    requires j.LengthOk(i) && InPlace(j, file, i, d) && d + count <= |j.parts[i]|
    requires j.at[i] + |j.parts[i]| <= |file|
    ensures InPlace(j, Overlay(file, j.at[i] + d, j.parts[i][d..d + count]), i, d + count)
  {
    var o, data := j.at[i], j.parts[i][d..d + count];
    var after := Overlay(file, o + d, data);
    assert after[o..o + d + count] == file[o..o + d] + data;
    assert j.parts[i][..d + count] == j.parts[i][..d] + data;
  }

  lemma WriteKeeps(j: Job, s: State, i: nat, count: nat, k: nat)
    requires j.Valid() && FileOk(j, s) && Enabled(j, s, WriteSome(i, count)) && k in s.landed
    ensures var s' := Apply(j, s, WriteSome(i, count));
            j.LengthOk(k) && InPlace(j, s'.file, k, s'.landed[k])
  {
    hide Overlay, InPlace, Total;
    var d := s.landed[i];
    assert InPlace(j, s.file, k, s.landed[k]);
    RangeInFile(j, i);
    if k == i {
      OverlayHere(j, s.file, i, d, count);
    } else {
      Apart(j, i, k);
      InRange(j, s.file, k, s.landed[k]);
      OverlayElsewhere(j, s.file, k, s.landed[k], j.at[i] + d, j.parts[i][d..d + count]);
    }
  }

  lemma InRange(j: Job, file: seq<Byte>, i: nat, d: nat)
    requires j.LengthOk(i) && InPlace(j, file, i, d)
    ensures d <= |j.parts[i]|
  {
  }

  lemma RangeInFile(j: Job, i: nat)
    requires j.Valid() && j.LengthOk(i)
    ensures j.at[i] + |j.parts[i]| <= j.size
  {
    hide Total;
    RangesApart(j.rawLens, i, |j.rawLens|);
    assert j.rawLens[..|j.rawLens|] == j.rawLens;
  }

  lemma Apart(j: Job, i: nat, k: nat)
    requires j.Valid() && j.LengthOk(i) && j.LengthOk(k) && i != k
    ensures j.at[i] + |j.parts[i]| <= j.at[k] || j.at[k] + |j.parts[k]| <= j.at[i]
  {
    hide Total;
    if i < k {
      RangesApart(j.rawLens, i, k);
    } else {
      RangesApart(j.rawLens, k, i);
    }
  }

  lemma NothingInPlace(j: Job, file: seq<Byte>, i: nat)
    requires j.Valid() && j.LengthOk(i) && |file| == j.size
    ensures InPlace(j, file, i, 0)
  {
    RangeInFile(j, i);
  }

  lemma FileStep(j: Job, s: State, step: Step)
    requires Inv(j, s) && Enabled(j, s, step)
    ensures FileOk(j, Apply(j, s, step))
  {
    hide Crc32, QueueBytes, Job.Size, Overlay, InPlace, QueueOk, WorkersOk, ChunksOk, Total;
    var s' := Apply(j, s, step);
    forall i | i in s'.landed
      ensures j.LengthOk(i) && InPlace(j, s'.file, i, s'.landed[i])
    {
      if step.WriteSome? {
        WriteKeeps(j, s, step.index, step.count, i);
      } else if i !in s.landed {
        NothingInPlace(j, s.file, i);
      }
    }
  }

  /** Every step keeps the invariant: no chunk is submitted twice, no slot is filled twice, the counter of queued
      bytes is right, and pieces of different chunks never overwrite each other. */
  lemma InvStep(j: Job, s: State, step: Step)
    requires Inv(j, s) && Enabled(j, s, step)
    ensures Inv(j, Apply(j, s, step))
  {
    hide QueueOk, WorkersOk, ChunksOk, FileOk, Apply, Enabled;
    QueueStep(j, s, step);
    WorkersStep(j, s, step);
    ChunksStep(j, s, step);
    FileStep(j, s, step);
  }

  lemma {:induction false} InvOnEveryRun(j: Job, s: State, steps: seq<Step>, s': State)
    requires Inv(j, s) && Path(j, s, steps, s')
    ensures Inv(j, s')
    decreases |steps|
  {
    hide Inv, Apply, Enabled;
    if steps != [] {
      InvStep(j, s, steps[0]);
      InvOnEveryRun(j, Apply(j, s, steps[0]), steps[1..], s');
    }
  }

  // ---- The end -----------------------------------------------------------------------------------

  /** The workers have been joined and the writer has been drained. */
  predicate Joined(s: State) {
    s.closed && forall w :: 0 <= w < |s.workers| ==> s.workers[w].Done?
  }

  predicate Drained(j: Job, s: State) {
    forall i :: i in s.landed && i < |j.parts| ==> s.landed[i] == |j.parts[i]|
  }

  lemma PrefixGrows(file: seq<Byte>, o: nat, before: seq<Byte>, part: seq<Byte>)
    requires o + |part| <= |file| && file[..o] == before && file[o..o + |part|] == part
    ensures file[..o + |part|] == before + part
  {
    assert file[..o + |part|] == file[..o] + file[o..o + |part|];
  }

  lemma LandedWhole(j: Job, s: State, i: nat)
    requires FileOk(j, s) && Drained(j, s) && j.LengthOk(i) && i in s.landed
    ensures var o := j.at[i];
            o + |j.parts[i]| <= |s.file| && s.file[o..o + |j.parts[i]|] == j.parts[i]
  {
    assert InPlace(j, s.file, i, s.landed[i]);
    assert j.parts[i][..|j.parts[i]|] == j.parts[i];
  }

  lemma {:induction false} FilePrefix(j: Job, s: State, k: nat)
    requires j.Valid() && j.LengthsRight() && FileOk(j, s) && Drained(j, s) && k <= |j.parts|
    requires forall i: nat :: i < k ==> i in s.landed
    ensures Offset(j.parts, k) <= |s.file| && s.file[..Offset(j.parts, k)] == Concat(j.parts, k)
  {
    hide FileOk, Drained, Total;
    if k > 0 {
      var i: nat := k - 1;
      FilePrefix(j, s, i);
      LandedWhole(j, s, i);
      OffsetIsTotal(j.parts, j.rawLens, i);
      PrefixGrows(s.file, Offset(j.parts, i), Concat(j.parts, i), j.parts[i]);
    }
  }

  lemma AllLanded(j: Job, s: State)
    requires Inv(j, s) && Joined(s)
    ensures forall i: nat :: i < |j.parts| ==> i in s.landed && i < |s.slots| && s.slots[i].Some? && j.LengthOk(i)
  {
    hide Crc32, FileOk, QueueBytes, Job.LengthOk;
    assert WorkerOk(j, s, 0);
    forall i: nat | i < |j.parts|
      ensures i in s.landed && i < |s.slots| && s.slots[i].Some? && j.LengthOk(i)
    {
      assert i < Popped(s) && Tracked(j, s, i);
    }
  }

  /** Parallel indexed decode: when every worker has left without a fault, whatever the interleaving of workers and
      positional writes was, the lengths in the index were right, the file is the concatenation of the decoded chunks
      in index order, and every checksum slot holds its chunk's checksum and length. */
  lemma DecodedInOrder(j: Job, s0: State, steps: seq<Step>, s: State)
    requires j.Valid() && Init(j, s0) && Path(j, s0, steps, s) && Joined(s) && Drained(j, s)
    ensures j.LengthsRight() && s.file == Concat(j.parts, |j.parts|) && |s.slots| == |j.parts|
    ensures forall i :: 0 <= i < |s.slots| ==> s.slots[i] == Some(Slot(Crc32(j.parts[i]), |j.parts[i]|))
  {
    hide Crc32, Concat, Offset, FileOk, Init, QueueBytes, Apply, Enabled, Total;
    InitInv(j, s0);
    InvOnEveryRun(j, s0, steps, s);
    AllLanded(j, s);
    FilePrefix(j, s, |j.parts|);
    OffsetIsTotal(j.parts, j.rawLens, |j.parts|);
    assert j.rawLens[..|j.parts|] == j.rawLens;
    WholeFile(j, s);
  }

  lemma WholeFile(j: Job, s: State)
    requires FileOk(j, s)
    ensures s.file[..j.size] == s.file
  {
  }

  /** With the right lengths in the index no run has a fault: no chunk has the wrong length, none is submitted twice,
      and no slot is filled twice. */
  lemma NoFault(j: Job, s0: State, steps: seq<Step>, s: State)
    requires j.Valid() && j.LengthsRight() && Init(j, s0) && Path(j, s0, steps, s)
    ensures !s.fault
  {
    hide Init, Apply, Enabled, QueueOk, WorkersOk, FileOk;
    InitInv(j, s0);
    InvOnEveryRun(j, s0, steps, s);
  }

  /** The checksum reported for the output is the checksum of the file. */
  method FoldSlots(j: Job, s: State) returns (crc: Word, len: nat)
    requires |s.slots| == |j.parts| && s.file == Concat(j.parts, |j.parts|)
    requires forall i :: 0 <= i < |s.slots| ==> s.slots[i] == Some(Slot(Crc32(j.parts[i]), |j.parts[i]|))
    ensures crc == Crc32(s.file) && len == |s.file|
  {
    hide Crc32, Concat;
    var slots := seq(|s.slots|, i requires 0 <= i < |s.slots| => s.slots[i].value);
    crc, len := CombineSlots(slots, j.parts);
  }

  // ---- Progress ----------------------------------------------------------------------------------

  function PcRank(pc: WorkerPc): nat {
    match pc
    case Idle => 1
    case Decoding(_) => 4
    case Submitted(_) => 3
    case Done => 0
  }

  function PcRanks(workers: seq<WorkerPc>): nat {
    if workers == [] then 0 else PcRanks(workers[..|workers| - 1]) + PcRank(workers[|workers| - 1])
  }

  /** How many bytes of the first `k` chunks have not landed. */
  function Missing(j: Job, landed: map<nat, nat>, k: nat): nat
    requires k <= |j.parts|
  {
    if k == 0 then 0
    else Missing(j, landed, k - 1) + SatSub(|j.parts[k - 1]|, if k - 1 in landed then landed[k - 1] else 0)
  }

  function Rank(j: Job, s: State): nat {
    6 * SatSub(|j.parts|, s.pushed) + (if s.closed then 0 else 1) + 5 * |s.queue| + PcRanks(s.workers)
    + Missing(j, s.landed, |j.parts|)
  }

  lemma {:induction false} PcRanksUpdate(workers: seq<WorkerPc>, w: nat, pc: WorkerPc)
    requires w < |workers|
    ensures PcRanks(workers[w := pc]) + PcRank(workers[w]) == PcRanks(workers) + PcRank(pc)
    decreases |workers|
  {
    hide PcRank;
    var n := |workers| - 1;
    if w < n {
      PcRanksUpdate(workers[..n], w, pc);
      assert workers[w := pc][..n] == workers[..n][w := pc];
    } else {
      assert workers[w := pc][..n] == workers[..n];
    }
  }

  lemma {:induction false} MissingUpdate(j: Job, landed: map<nat, nat>, i: nat, d: nat, k: nat)
    requires i < |j.parts| && d <= |j.parts[i]| && k <= |j.parts|
    requires (if i in landed then landed[i] else 0) <= d
    ensures Missing(j, landed[i := d], k) ==
            Missing(j, landed, k) - if i < k then d - (if i in landed then landed[i] else 0) else 0
  {
    if k > 0 {
      MissingUpdate(j, landed, i, d, k - 1);
    }
  }

  /** Every step brings the end closer, so every run is finite; a fault ends it at once. */
  lemma StepRank(j: Job, s: State, step: Step)
    requires Inv(j, s) && Enabled(j, s, step)
    ensures Rank(j, Apply(j, s, step)) < Rank(j, s) || Apply(j, s, step).fault
  {
    hide Crc32, Concat, Offset, FileOk, QueueBytes, Overlay, PcRanks, Missing, Job.Size;
    WorkersStep(j, s, step);
    var s' := Apply(j, s, step);
    if IsWorkerStep(step) {
      PcRanksUpdate(s.workers, step.w, s'.workers[step.w]);
    }
    if s'.fault {
      return;
    }
    match step
    case Submit(w) => MissingUpdate(j, s.landed, s.workers[w].index, 0, |j.parts|);
    case WriteSome(i, count) => MissingUpdate(j, s.landed, i, s.landed[i] + count, |j.parts|);
    case _ =>
  }

  /** A run stops only at the end: while a worker has not left or bytes have not landed, some step is enabled. */
  lemma NeverStuck(j: Job, s: State) returns (step: Step)
    requires Inv(j, s) && !s.fault && !(Joined(s) && Drained(j, s))
    ensures Enabled(j, s, step)
  {
    hide Crc32, Concat, Offset, ChunksOk;
    if s.pushed < |j.parts| && s.queuedBytes < j.queueCap {
      step := PushNext;
    } else if s.pushed == |j.parts| && !s.closed {
      step := Close;
    } else if s.pushed < |j.parts| || !Joined(s) {
      var w: nat := 0;
      if s.pushed == |j.parts| {
        w :| 0 <= w < |s.workers| && !s.workers[w].Done?;
      }
      assert WorkerOk(j, s, w);
      step := if s.workers[w].Decoding? then Submit(w) else if s.workers[w].Submitted? then FillSlot(w)
              else if s.queue != [] then Pop(w) else Leave(w);
    } else {
      var i: nat :| i in s.landed && i < |j.parts| && s.landed[i] != |j.parts[i]|;
      assert InPlace(j, s.file, i, s.landed[i]);
      step := WriteSome(i, 1);
    }
  }

  /** From every state that satisfies the invariant a run goes on to the end, where the lengths in the index are
      right. */
  lemma {:induction false} EndsFrom(j: Job, s: State) returns (steps: seq<Step>, s': State)
    requires Inv(j, s) && j.LengthsRight()
    ensures Path(j, s, steps, s') && Joined(s') && Drained(j, s')
    decreases Rank(j, s)
  {
    hide QueueOk, WorkersOk, FileOk, Apply, Enabled, Rank, Joined, Drained, Job.LengthsRight;
    if Joined(s) && Drained(j, s) {
      return [], s;
    }
    var step := NeverStuck(j, s);
    InvStep(j, s, step);
    StepRank(j, s, step);
    var rest;
    rest, s' := EndsFrom(j, Apply(j, s, step));
    steps := [step] + rest;
    assert steps[1..] == rest;
  }

  /** Every job with the right lengths has a run to its end. */
  lemma RunsToEnd(j: Job, s0: State) returns (steps: seq<Step>, s: State)
    requires j.Valid() && j.LengthsRight() && Init(j, s0)
    ensures Path(j, s0, steps, s) && Joined(s) && Drained(j, s)
  {
    hide Path, Init;
    InitInv(j, s0);
    steps, s := EndsFrom(j, s0);
  }

  // ---- The queue limit ---------------------------------------------------------------------------

  /** The size of the largest prepared chunk. */
  function Largest(sizes: seq<nat>): (m: nat)
    ensures forall k :: 0 <= k < |sizes| ==> sizes[k] <= m
    ensures m == 0 || m in sizes
  {
    if sizes == [] then 0
    else
      var m := Largest(sizes[..|sizes| - 1]);
      if sizes[|sizes| - 1] > m then sizes[|sizes| - 1] else m
  }

  lemma QueueLimitStep(j: Job, s: State, step: Step)
    requires Enabled(j, s, step) && s.queuedBytes < j.queueCap + Largest(j.prepared)
    ensures Apply(j, s, step).queuedBytes < j.queueCap + Largest(j.prepared)
  {
    hide Largest, Overlay, Crc32;
  }

  /** On every run the prepared chunks that wait stay below the queue limit and one chunk more. */
  lemma {:induction false} QueueBounded(j: Job, s0: State, steps: seq<Step>, s: State)
    requires Path(j, s0, steps, s) && s0.queuedBytes < j.queueCap + Largest(j.prepared)
    ensures s.queuedBytes < j.queueCap + Largest(j.prepared)
    decreases |steps|
  {
    hide Enabled, Apply, Largest;
    if steps != [] {
      QueueLimitStep(j, s0, steps[0]);
      QueueBounded(j, Apply(j, s0, steps[0]), steps[1..], s);
    }
  }
}
