/** Progress of the compression pipeline: error-free runs always have a next step, and every step that is not an
    idle poll of the writer brings the end closer. */
module PipelineProgress {
  import opened Pipeline
  import opened PipelineSafety
  import opened PipelineInvariant
  import opened PipelineRuns
  import opened PipelineLimits
  import opened PipelineAlone
  import opened Sums

  // ---- The rank ----------------------------------------------------------------------------------

  function WorkerRank(pc: WorkerPc): nat {
    match pc
    case AtReadyGate => 3
    case Taking => 2
    case Busy(tasks) => 18 * |tasks|
    case Publishing(items) => 16 * |items|
    case Done => 0
  }

  function WorkersRank(workers: seq<WorkerPc>): nat {
    if workers == [] then 0 else WorkersRank(workers[..|workers| - 1]) + WorkerRank(workers[|workers| - 1])
  }

  function ProducerRank(c: Config, s: State): nat {
    100 * SatSub(|c.chunks|, s.read) +
    match s.producer {
      case AtGate => 4
      case Reading => 3
      case Counting => 30
      case Pushing => 29
      case Stopped => 0
    }
  }

  /** The producer has seen the end of the input and everything is written. */
  predicate Finished(s: State) {
    s.closed && s.next == s.total
  }

  /** How far the writer is from taking the next chunk or from leaving; 6 while it can only poll. */
  function WriterRank(s: State): nat {
    match s.writer
    case Got(_) => 11
    case GotTotal(_, _) => 10
    case Wrote(_) => 9
    case Released(_) => 8
    case Popping => if s.next in s.ready then 1 else if Finished(s) then 3 else 6
    case Checking => if s.next in s.ready then 3 else if Finished(s) then 2 else 6
    case CheckingClosed(seen) =>
      if s.next in s.ready then 2 else if Finished(s) then if seen == s.next then 1 else 4 else 6
    case Exited => 0
  }

  function Rank(c: Config, s: State): nat {
    ProducerRank(c, s) + 20 * |s.queue| + WorkersRank(s.workers) + 11 * |s.ready| + WriterRank(s)
  }

  /** The writer looks and finds neither its next chunk nor the end. */
  predicate IdlePoll(s: State, step: Step) {
    (step.FindNothing? || step.CheckTotal? || step.CheckClosed?) && s.next !in s.ready && !Finished(s)
  }

  lemma {:induction false} WorkersRankUpdate(workers: seq<WorkerPc>, w: nat, pc: WorkerPc)
    requires w < |workers|
    ensures WorkersRank(workers[w := pc]) + WorkerRank(workers[w]) == WorkersRank(workers) + WorkerRank(pc)
    decreases |workers|
  {
    hide WorkerRank;
    var n := |workers| - 1;
    if w < n {
      WorkersRankUpdate(workers[..n], w, pc);
      assert workers[w := pc][..n] == workers[..n][w := pc];
    } else {
      assert workers[w := pc][..n] == workers[..n];
    }
  }

  lemma {:induction false} InsertAllSize(ready: map<nat, Item>, items: seq<Item>)
    requires Fresh(ready, items)
    ensures |InsertAll(ready, items)| == |ready| + |items|
    decreases |items|
  {
    if items != [] {
      var init, last := items[..|items| - 1], items[|items| - 1];
      InsertAllSize(ready, init);
      InsertAllKnows(ready, init, last.index);
    }
  }

  lemma TakenCount(c: Config, w: nat, queue: seq<nat>)
    ensures |Taken(c, w, queue).0| + |Taken(c, w, queue).1| == |queue|
  {
  }

  lemma PublishRank(c: Config, s: State, w: nat)
    requires Safe(c, s) && Enabled(c, s, Publish(w))
    ensures Rank(c, Apply(c, s, Publish(w))) < Rank(c, s)
  {
    hide Partition, Counters, InsertAll, Fresh, WorkersRank, ProducerShape, WriterShape, ItemBytes;
    hide PreparedBytes, Config.ReadyByteCap;
    hide ItemOk;
    PublishIsFresh(c, s, w);
    InsertAllSize(s.ready, s.workers[w].items);
    InsertAllKnows(s.ready, s.workers[w].items, s.next);
    WorkersRankUpdate(s.workers, w, AtReadyGate);
    assert WorkerShape(c, s, w);
    var s' := Apply(c, s, Publish(w));
  }

  lemma WorkerStepRank(c: Config, s: State, step: Step)
    requires Safe(c, s) && Enabled(c, s, step) && IsWorkerStep(step) && !step.Publish?
    ensures Rank(c, Apply(c, s, step)) < Rank(c, s)
  {
    hide Partition, Counters, WorkersRank, ProducerShape, WriterShape, Config.ReadyByteCap, Taken, RawBytes;
    hide ItemOk, CpuItem;
    var s' := Apply(c, s, step);
    WorkersRankUpdate(s.workers, step.w, s'.workers[step.w]);
    assert s.workers[step.w := s'.workers[step.w]] == s'.workers;
    TakenCount(c, step.w, s.queue);
    assert WorkerShape(c, s, step.w);
  }

  lemma PopRank(c: Config, s: State)
    requires Enabled(c, s, PopReady)
    ensures Rank(c, Apply(c, s, PopReady)) < Rank(c, s)
  {
    hide WorkersRank;
    var s' := Apply(c, s, PopReady);
    assert s.ready == s'.ready[s.next := s.ready[s.next]];
    assert |s'.ready| == |s.ready| - 1;
  }

  lemma OtherRank(c: Config, s: State, step: Step)
    requires ProducerShape(c, s) && Enabled(c, s, step) && !IsWorkerStep(step) && !step.PopReady?
    ensures Rank(c, Apply(c, s, step)) <= Rank(c, s)
    ensures !IdlePoll(s, step) ==> Rank(c, Apply(c, s, step)) < Rank(c, s)
  {
    hide WorkersRank, Config.Raw, LimitHit;
  }

  /** No step moves away from the end, and every step but an idle poll moves towards it. */
  lemma StepRank(c: Config, s: State, step: Step)
    requires Safe(c, s) && Enabled(c, s, step)
    ensures Rank(c, Apply(c, s, step)) <= Rank(c, s)
    ensures !IdlePoll(s, step) ==> Rank(c, Apply(c, s, step)) < Rank(c, s)
  {
    hide Rank, Enabled, Apply, Partition, Counters, WriterShape, WorkersShape, ProducerShape;
    if step.Publish? {
      PublishRank(c, s, step.w);
    } else if IsWorkerStep(step) {
      WorkerStepRank(c, s, step);
    } else if step.PopReady? {
      PopRank(c, s);
    } else {
      OtherRank(c, s, step);
    }
  }

  // ---- Some step is always enabled ---------------------------------------------------------------

  ghost predicate SizesUpTo(c: Config, m: nat) {
    forall i :: 0 <= i < |c.chunks| ==>
      c.chunks[i].cpuSize <= m && (c.gpu ==> c.chunks[i].gpuSize <= m && c.chunks[i].gpuPrepared <= m)
  }

  /** Chunks of `m` octets, as many as may be in flight, cannot keep the ready gate shut: all of them for a batch of the
      GPU worker, all but the one the writer waits for a CPU worker. */
  predicate WideEnough(c: Config, m: nat) {
    match Width(c)
    case None => m == 0
    case Some(k) => if c.GpuWorks() then k * m <= c.ReadyByteCap() else (k - 1) * m < c.ReadyByteCap()
  }

  ghost predicate RoomFor(c: Config, m: nat) {
    c.Valid() && SizesUpTo(c, m) && WideEnough(c, m)
  }

  /** What the width leaves behind the chunk that the writer waits for. */
  lemma WidthBehind(c: Config, m: nat, n: nat)
    requires RoomFor(c, m) && (Width(c).Some? ==> n < Width(c).value)
    ensures n * m < c.ReadyByteCap()
  {
    hide Config.ReadyByteCap, SizesUpTo, Width;
    OpenGate(c);
    if Width(c).Some? {
      var k := Width(c).value;
      MulLess(n, k - 1, m);
      assert (k - 1) * m == k * m - m;
    }
  }

  lemma MulLess(a: nat, b: int, m: nat)
    requires a <= b
    ensures a * m <= b * m
  {
  }

  lemma ReadyBytesAtMost(c: Config, s: State, m: nat)
    requires SizesUpTo(c, m) && WorkersShape(c, s)
    ensures ReadyBytes(s.ready) <= |s.ready| * m
  {
    hide Sum;
    forall k | k in s.ready.Keys
      ensures SizeIn(s.ready)(k) <= m
    {
      assert ItemOk(c, s.ready[k]);
    }
    SumAtMost(s.ready.Keys, SizeIn(s.ready), m);
  }

  lemma ReadyCount(c: Config, s: State)
    requires Safe(c, s) && s.next !in s.ready && |s.out| == s.next < s.total
    ensures |s.ready| <= s.total - s.next - 1
  {
    hide Safe;
    ReadyIsBehind(c, s);
    WindowSize(s.next + 1, s.total);
    SubsetSize(s.ready.Keys, Window(s.next + 1, s.total));
  }

  /** So the ready gate is open. */
  lemma GateOpen(c: Config, s: State, m: nat)
    requires RoomFor(c, m) && Safe(c, s) && Bounded(c, s) && !s.writer.Wrote?
    requires s.next !in s.ready && |s.out| == s.next < s.total
    ensures s.readyBytes < c.ReadyByteCap()
  {
    hide Partition, ProducerShape, WriterShape, Config.ReadyByteCap, WorkersShape, ReadyBytes, SizesUpTo, Bounded;
    hide WideEnough, Width, Config.Valid;
    ReadyCount(c, s);
    SomeChunk(c, s);
    InFlight(c, s);
    ReadyBytesAtMost(c, s, m);
    WidthBehind(c, m, |s.ready|);
  }

  lemma SomeChunk(c: Config, s: State)
    requires c.Valid() && Safe(c, s) && s.total > 0
    ensures c.chunkSize > 0
  {
    hide Partition, Counters, WorkersShape, WriterShape;
    assert c.chunks[0].raw > 0;
  }

  lemma {:induction false} ItemBytesAtMost(c: Config, items: seq<Item>, m: nat)
    requires SizesUpTo(c, m) && forall k :: 0 <= k < |items| ==> ItemOk(c, items[k])
    ensures ItemBytes(items) <= |items| * m
  {
    if items != [] {
      var n := |items| - 1;
      ItemBytesAtMost(c, items[..n], m);
      assert ItemOk(c, items[n]);
      assert (n + 1) * m == n * m + m;
    }
  }

  /** What is ready and what a worker is about to publish are different chunks in flight. */
  lemma TogetherInFlight(c: Config, s: State, w: nat)
    requires Safe(c, s) && |s.out| == s.next && WorkerAt(s, w) && s.workers[w].Publishing?
    ensures |s.ready| + |s.workers[w].items| <= SatSub(s.total, s.next)
  {
    hide Held, UpTo, InHand, Partition, Counters, WorkersShape, WriterShape, Fresh;
    var items := s.workers[w].items;
    PublishIsFresh(c, s, w);
    var after := InsertAll(s.ready, items);
    InsertAllSize(s.ready, items);
    HeldContains(s.workers, w);
    forall k | k in after
      ensures k in Window(s.next, s.total)
    {
      InsertAllKnows(s.ready, items, k);
      PlaceOnce(s, k);
      UpToOnce(|s.out|, k);
      if k !in s.ready {
        var j :| 0 <= j < |items| && items[j].index == k;
        assert Indexes(items)[j] == k;
        assert k in HeldBy(s.workers[w]);
      }
    }
    WindowSize(s.next, s.total);
    SubsetSize(after.Keys, Window(s.next, s.total));
  }

  /** The gate is open for a batch as well, when all chunks in flight fit it together. */
  lemma BatchFits(c: Config, s: State, w: nat, m: nat)
    requires RoomFor(c, m) && c.GpuWorks() && Safe(c, s) && Bounded(c, s) && !s.writer.Wrote?
    requires |s.out| == s.next <= s.total && WorkerAt(s, w) && s.workers[w].Publishing?
    ensures s.readyBytes + ItemBytes(s.workers[w].items) <= c.ReadyByteCap()
  {
    hide Partition, ProducerShape, WriterShape, Config.ReadyByteCap, WorkersShape, ReadyBytes, SizesUpTo, ItemOk;
    hide Bounded, Width, Config.Valid;
    var items := s.workers[w].items;
    var n := |s.ready| + |items|;
    TogetherInFlight(c, s, w);
    ReadyBytesAtMost(c, s, m);
    ItemsAreOk(c, s, w);
    ItemBytesAtMost(c, items, m);
    assert n * m == |s.ready| * m + |items| * m;
    if n > 0 {
      SomeChunk(c, s);
      InFlight(c, s);
      if Width(c).Some? {
        MulLess(n, Width(c).value, m);
      }
    }
  }

  lemma ItemsAreOk(c: Config, s: State, w: nat)
    requires WorkersShape(c, s) && WorkerAt(s, w) && s.workers[w].Publishing?
    ensures forall k :: 0 <= k < |s.workers[w].items| ==> ItemOk(c, s.workers[w].items[k])
  {
    hide ItemOk;
    assert WorkerShape(c, s, w);
  }

  lemma {:induction false} FindHolder(workers: seq<WorkerPc>, i: nat) returns (w: nat)
    requires i in Held(workers)
    ensures w < |workers| && i in HeldBy(workers[w])
    decreases |workers|
  {
    hide HeldBy;
    var n := |workers| - 1;
    if i in HeldBy(workers[n]) {
      w := n;
    } else {
      w := FindHolder(workers[..n], i);
    }
  }

  /** The chunk the writer waits for is in the queue or with a worker. */
  lemma NextIsUnderway(c: Config, s: State) returns (w: nat)
    requires Safe(c, s) && s.next !in s.ready && |s.out| == s.next < s.total && InHand(s.writer) == multiset{}
    requires !s.producer.Counting? && !s.producer.Pushing?
    ensures s.queue != [] || (WorkerAt(s, w) && s.next in HeldBy(s.workers[w]))
  {
    hide Held, UpTo, Partition, Counters, WorkersShape, WriterShape;
    PlaceOnce(s, s.next);
    UpToOnce(|s.out|, s.next);
    w := 0;
    if s.queue == [] {
      assert s.next in Held(s.workers);
      w := FindHolder(s.workers, s.next);
    }
  }

  // ---- Progress ----------------------------------------------------------------------------------

  /** The configurations that always end. */
  ghost predicate Ends(c: Config, m: nat) {
    Alone(c) || RoomFor(c, m)
  }

  /** What keeps them going. */
  ghost predicate Going(c: Config, s: State) {
    Bounded(c, s) && (Alone(c) ==> InLine(s))
  }

  lemma GoingInit(c: Config)
    ensures Going(c, Init(c))
  {
    hide Bounded, InLine;
    BoundedInit(c);
    if Alone(c) {
      InLineInit(c);
    }
  }

  lemma GoingStep(c: Config, s: State, step: Step)
    requires c.Valid() && Safe(c, s) && Going(c, s) && Enabled(c, s, step)
    ensures Going(c, Apply(c, s, step))
  {
    hide Safe, InLine, Limited, Narrow, GpuIdle, Enabled, Apply, Alone;
    BoundedStep(c, s, step);
    if Alone(c) {
      InLineStep(c, s, step);
    }
  }

  lemma EndsIsValid(c: Config, m: nat)
    requires Ends(c, m)
    ensures c.Valid() && (c.GpuWorks() ==> RoomFor(c, m))
  {
  }

  /** The ready gate is open while the writer waits. */
  lemma GateStaysOpen(c: Config, s: State, m: nat)
    requires Ends(c, m) && Safe(c, s) && Going(c, s) && s.next !in s.ready && |s.out| == s.next < s.total
    requires InHand(s.writer) == multiset{} && !s.writer.Wrote? && !s.producer.Counting? && !s.producer.Pushing?
    ensures s.readyBytes < c.ReadyByteCap()
  {
    hide Safe, InLine, Bounded, RoomFor, Alone, Config.ReadyByteCap, InHand;
    if Alone(c) {
      NothingReady(c, s);
    } else {
      GateOpen(c, s, m);
    }
  }

  /** A producer that waits at its gate has read chunks that are not written. */
  lemma BlockedMeansMore(c: Config, s: State)
    requires Safe(c, s) && s.producer.AtGate? && LimitHit(c, s) && |s.out| == s.next && !s.writer.Wrote?
    ensures s.next < s.total
  {
    hide Held, UpTo, InHand, Partition, WorkersShape, RawBytes, ReadyBytes, Config.Raw;
    OutWasCounted(c, s);
  }

  /** What the CPU coder makes of a list of tasks; the GPU worker falls back to it. */
  function CpuItems(c: Config, tasks: seq<nat>): (r: seq<Item>)
    requires forall k :: 0 <= k < |tasks| ==> tasks[k] < |c.chunks|
    ensures |r| == |tasks|
  {
    seq(|tasks|, k requires 0 <= k < |tasks| => CpuItemOf(c, tasks[k]))
  }

  lemma CpuItemsCompress(c: Config, w: nat, tasks: seq<nat>)
    requires forall k :: 0 <= k < |tasks| ==> tasks[k] < |c.chunks|
    ensures Compressed(c, w, tasks, CpuItems(c, tasks))
  {
    assert Indexes(CpuItems(c, tasks)) == tasks;
  }

  /** A worker at work can always take its next step while the ready gate is open. */
  lemma WorkerCanStep(c: Config, s: State, w: nat, m: nat) returns (step: Step)
    requires Safe(c, s) && Bounded(c, s) && (c.GpuWorks() ==> RoomFor(c, m)) && !s.writer.Wrote?
    requires WorkerAt(s, w) && !s.workers[w].Done?
    requires s.readyBytes < c.ReadyByteCap() && |s.out| == s.next <= s.total
    requires s.workers[w].Taking? ==> s.queue != [] && !c.IsGpu(w)
    ensures Enabled(c, s, step) && IsWorkerStep(step)
  {
    hide Held, UpTo, InHand, Partition, Counters, Config.ReadyByteCap, ProducerShape, WriterShape, WorkersShape;
    hide Compressed, RoomFor, Limited, Narrow, ItemBytes;
    match s.workers[w]
    case AtReadyGate => step := PassReadyGate(w);
    case Taking => step := TakeTasks(w);
    case Busy(tasks) =>
      HeldIsChunk(c, s, w);
      CpuItemsCompress(c, w, tasks);
      step := Compress(w, CpuItems(c, tasks));
    case Publishing(_) =>
      if c.GpuWorks() {
        BatchFits(c, s, w, m);
      }
      step := Publish(w);
  }

  lemma HeldIsChunk(c: Config, s: State, w: nat)
    requires Safe(c, s) && WorkerAt(s, w) && s.workers[w].Busy?
    ensures forall k :: 0 <= k < |s.workers[w].tasks| ==> s.workers[w].tasks[k] < |c.chunks|
  {
    hide Held, UpTo, InHand, Partition, Counters, WriterShape, WorkersShape;
    var tasks := s.workers[w].tasks;
    HeldContains(s.workers, w);
    forall k | 0 <= k < |tasks|
      ensures tasks[k] < |c.chunks|
    {
      assert tasks[k] in multiset(tasks);
      PlaceOnce(s, tasks[k]);
    }
  }

  /** The writer's own next step. */
  function WriterStep(s: State): Step {
    match s.writer
    case Got(_) => ReadTotal
    case GotTotal(_, _) => WriteOut
    case Wrote(_) => ReleaseBytes
    case Released(_) => StoreWritten
    case Popping => if s.next in s.ready then PopReady else FindNothing
    case Checking => CheckTotal
    case CheckingClosed(_) => CheckClosed
    case Exited => FindNothing
  }

  predicate Polling(s: State) {
    (s.writer.Popping? || s.writer.Checking? || s.writer.CheckingClosed?) && s.next !in s.ready && !Finished(s)
  }

  /** In every state before the writer leaves, some step other than an idle poll is enabled. */
  lemma NeverStuck(c: Config, s: State, m: nat) returns (step: Step)
    requires Ends(c, m) && Safe(c, s) && Going(c, s) && !s.writer.Exited?
    ensures Enabled(c, s, step) && !IdlePoll(s, step)
  {
    hide Partition, Counters, Held, WorkersShape, Config.ReadyByteCap, Taken, RawBytes, Compressed, ItemBytes;
    hide PreparedBytes, Ends, Going, LimitHit;
    if !Polling(s) {
      step := WriterStep(s);
    } else if s.producer.Reading? {
      step := if s.read < |c.chunks| then ReadChunk else ReadEof;
    } else if s.producer.Counting? {
      step := CountTask;
    } else if s.producer.Pushing? {
      step := PushTask;
    } else if s.producer.AtGate? && !LimitHit(c, s) {
      step := PassGate;
    } else {
      OutWasCounted(c, s);
      if s.producer.AtGate? {
        BlockedMeansMore(c, s);
      }
      step := WorkersCanStep(c, s, m);
    }
  }

  lemma WorkersCanStep(c: Config, s: State, m: nat) returns (step: Step)
    requires Ends(c, m) && Safe(c, s) && Going(c, s) && |s.out| == s.next < s.total
    requires InHand(s.writer) == multiset{} && !s.writer.Wrote?
    requires s.next !in s.ready && !s.producer.Counting? && !s.producer.Pushing?
    ensures Enabled(c, s, step) && IsWorkerStep(step)
  {
    hide Partition, Counters, Held, Config.ReadyByteCap, ProducerShape, WriterShape, Enabled, Bounded, InHand, ItemOk;
    hide WorkersShape, HeldBy, Ends, RoomFor, Alone, InLine;
    EndsIsValid(c, m);
    GateStaysOpen(c, s, m);
    var w := NextIsUnderway(c, s);
    if s.queue != [] {
      FirstIsCpu(c, s);
      step := WorkerCanStep(c, s, 0, m);
    } else {
      HoldingIsWorking(s.workers[w], s.next);
      step := WorkerCanStep(c, s, w, m);
    }
  }

  /** There is a CPU worker, and it does not leave while there are tasks. */
  lemma FirstIsCpu(c: Config, s: State)
    requires c.Valid() && WorkersShape(c, s) && s.queue != []
    ensures WorkerAt(s, 0) && !c.IsGpu(0) && !s.workers[0].Done?
  {
    hide ItemOk;
    assert WorkerAt(s, 0) && WorkerShape(c, s, 0);
  }

  lemma HoldingIsWorking(pc: WorkerPc, i: nat)
    requires i in HeldBy(pc)
    ensures pc.Busy? || pc.Publishing?
  {
  }
}
