/** When the ready gate keeps the compression pipeline from ending: a worker holds the chunk the writer waits for, and
    what is ready behind that chunk leaves no room for it. */
module PipelineJam {
  import opened Pipeline
  import opened PipelineSafety
  import opened PipelineRuns
  import opened PipelineLimits
  import opened PipelineAlone
  import opened PipelineProgress
  import opened PipelineEnd
  import opened PipelineSchedule

  /** A worker wants to publish the chunk the writer looks for, alone or in a batch. */
  ghost predicate HoldsNext(c: Config, s: State, w: nat) {
    && WorkerAt(s, w) && s.workers[w].Publishing? && s.next in Indexes(s.workers[w].items)
    && (s.writer.Popping? || s.writer.Checking? || s.writer.CheckingClosed?)
  }

  /** What is ready leaves no room: for a batch when both exceed the gate together, for a CPU worker when it is full. */
  predicate Shut(c: Config, w: nat, readyBytes: nat, items: seq<Item>) {
    if c.IsGpu(w) then readyBytes + ItemBytes(items) > c.ReadyByteCap() else readyBytes >= c.ReadyByteCap()
  }

  /** The writer is about to leave. */
  predicate Leaving(s: State) {
    s.writer.CheckingClosed? && s.writer.seen == s.next && s.closed
  }

  /** Whatever happens, the next chunk is never written. */
  ghost predicate Stuck(c: Config, s: State) {
    forall steps, s' :: Path(c, s, steps, s') ==> s'.next == s.next
  }

  lemma HeldKeepsNextAway(c: Config, s: State, w: nat)
    requires Safe(c, s) && WorkerAt(s, w) && s.workers[w].Publishing? && s.next in Indexes(s.workers[w].items)
    ensures s.next !in s.ready && s.next < s.total
  {
    hide Held, UpTo, InHand, Partition, Counters, WorkersShape, WriterShape;
    HeldContains(s.workers, w);
    assert s.next in HeldBy(s.workers[w]);
    PlaceOnce(s, s.next);
  }

  // ---- Without room the chunk waits for ever -----------------------------------------------------

  /** There is no room for the chunk, and the writer polls or has left. */
  ghost predicate Blocked(c: Config, s: State, w: nat, items: seq<Item>) {
    && WorkerAt(s, w) && s.workers[w] == Publishing(items) && Shut(c, w, s.readyBytes, items)
    && s.next in Indexes(items)
    && (s.writer.Popping? || s.writer.Checking? || s.writer.CheckingClosed? || s.writer.Exited?)
  }

  lemma BlockedStep(c: Config, s: State, w: nat, items: seq<Item>, step: Step)
    requires Safe(c, s) && Blocked(c, s, w, items) && Enabled(c, s, step)
    ensures Blocked(c, Apply(c, s, step), w, items) && Apply(c, s, step).next == s.next
  {
    hide Partition, Counters, WorkersShape, ItemBytes, PreparedBytes, Config.ReadyByteCap, Taken, RawBytes, Compressed;
    hide Fresh, InsertAll, LimitHit, Config.Raw, WriterShape, Indexes;
    HeldKeepsNextAway(c, s, w);
  }

  lemma {:induction false} BlockedPath(c: Config, s: State, w: nat, items: seq<Item>, steps: seq<Step>, s': State)
    requires Safe(c, s) && Blocked(c, s, w, items) && Path(c, s, steps, s')
    ensures s'.next == s.next
    decreases |steps|
  {
    hide Safe, Enabled, Apply, Blocked;
    if steps != [] {
      BlockedStep(c, s, w, items, steps[0]);
      SafeStep(c, s, steps[0]);
      BlockedPath(c, Apply(c, s, steps[0]), w, items, steps[1..], s');
    }
  }

  lemma {:induction false} LeavingPath(c: Config, s: State, steps: seq<Step>, s': State)
    requires (Leaving(s) || s.writer.Exited?) && Path(c, s, steps, s')
    ensures s'.next == s.next
    decreases |steps|
  {
    hide LimitHit, Taken, Compressed, Fresh, InsertAll, MayPublish, PreparedBytes, RawBytes, Config.Raw;
    if steps != [] {
      LeavingPath(c, Apply(c, s, steps[0]), steps[1..], s');
    }
  }

  // ---- With room the chunk can be written --------------------------------------------------------

  lemma {:induction false} PathExtend(c: Config, s0: State, steps: seq<Step>, s: State, step: Step)
    returns (steps': seq<Step>, s': State)
    requires Path(c, s0, steps, s) && Enabled(c, s, step)
    ensures Path(c, s0, steps', s') && s' == Apply(c, s, step)
    decreases |steps|
  {
    hide Enabled, Apply;
    s' := Apply(c, s, step);
    if steps == [] {
      steps' := [step];
      assert steps'[1..] == [];
      assert Path(c, s', steps'[1..], s');
    } else {
      var rest, end := PathExtend(c, Apply(c, s0, steps[0]), steps[1..], s, step);
      steps' := [steps[0]] + rest;
      assert steps'[1..] == rest;
    }
  }

  /** The writer comes round to looking for its next chunk. */
  lemma ComeRound(c: Config, s: State, w: nat) returns (steps: seq<Step>, s': State)
    requires Safe(c, s) && HoldsNext(c, s, w) && !Leaving(s)
    ensures Path(c, s, steps, s') && s' == s.(writer := Popping)
  {
    hide Safe, Path, Indexes;
    HeldKeepsNextAway(c, s, w);
    steps, s' := [], s;
    PathStart(c, s);
    if s.writer.Checking? {
      steps, s' := PathExtend(c, s, steps, s', CheckTotal);
      steps, s' := PathExtend(c, s, steps, s', CheckClosed);
    } else if s.writer.CheckingClosed? {
      steps, s' := PathExtend(c, s, steps, s', CheckClosed);
    }
  }

  lemma PathStart(c: Config, s: State)
    ensures Path(c, s, [], s)
  {
  }

  /** The worker publishes, and the chunk is written. */
  lemma WriteNext(c: Config, s: State, w: nat) returns (steps: seq<Step>, s': State)
    requires Safe(c, s) && HoldsNext(c, s, w) && !Leaving(s) && !Shut(c, w, s.readyBytes, s.workers[w].items)
    ensures Path(c, s, steps, s') && s'.next == s.next + 1
  {
    hide Safe, Path, Fresh, InsertAll, ItemBytes, PreparedBytes, Config.ReadyByteCap, Indexes;
    var items := s.workers[w].items;
    steps, s' := ComeRound(c, s, w);
    PartitionOf(c, s);
    PublishIsFresh(c, s, w);
    InsertAllHas(s.ready, items, s.next);
    steps, s' := PathExtend(c, s, steps, s', Publish(w));
    steps, s' := WriteReady(c, s, steps, s');
  }

  lemma WriteReady(c: Config, s0: State, steps0: seq<Step>, s: State) returns (steps: seq<Step>, s': State)
    requires Path(c, s0, steps0, s) && s.writer.Popping? && s.next in s.ready
    ensures Path(c, s0, steps, s') && s'.next == s.next + 1
  {
    hide Path, Config.Raw;
    steps, s' := PathExtend(c, s0, steps0, s, PopReady);
    steps, s' := PathExtend(c, s0, steps, s', ReadTotal);
    steps, s' := PathExtend(c, s0, steps, s', WriteOut);
    steps, s' := PathExtend(c, s0, steps, s', ReleaseBytes);
    steps, s' := PathExtend(c, s0, steps, s', StoreWritten);
  }

  lemma PartitionOf(c: Config, s: State)
    requires Safe(c, s)
    ensures Partition(s)
  {
    hide Partition;
  }

  lemma {:induction false} InsertAllHas(ready: map<nat, Item>, items: seq<Item>, k: nat)
    requires k in Indexes(items)
    ensures k in InsertAll(ready, items)
    decreases |items|
  {
    var n := |items| - 1;
    if items[n].index != k {
      var j: nat :| j < |items| && Indexes(items)[j] == k;
      assert j < n && Indexes(items[..n])[j] == k;
      InsertAllHas(ready, items[..n], k);
    }
  }

  /** A worker that holds the chunk the writer waits for is stuck exactly when what is ready leaves no room for it;
      otherwise that chunk can still be written, unless the writer is already about to leave without it. */
  lemma StuckIff(c: Config, s: State, w: nat)
    requires Safe(c, s) && HoldsNext(c, s, w)
    ensures Stuck(c, s) <==> Shut(c, w, s.readyBytes, s.workers[w].items) || Leaving(s)
  {
    hide Safe, Path, Leaving, Shut, Indexes;
    var items := s.workers[w].items;
    if Shut(c, w, s.readyBytes, items) {
      forall steps, s' | Path(c, s, steps, s')
        ensures s'.next == s.next
      {
        BlockedPath(c, s, w, items, steps, s');
      }
    } else if Leaving(s) {
      forall steps, s' | Path(c, s, steps, s')
        ensures s'.next == s.next
      {
        LeavingPath(c, s, steps, s');
      }
    } else {
      var steps, s' := WriteNext(c, s, w);
    }
  }

  // ---- Jams --------------------------------------------------------------------------------------

  /** There is no room for the chunk, and the writer will not leave either. */
  ghost predicate Jammed(c: Config, s: State, w: nat) {
    && HoldsNext(c, s, w) && Shut(c, w, s.readyBytes, s.workers[w].items)
    && (s.writer.CheckingClosed? ==> s.writer.seen > s.next)
  }

  lemma JammedStep(c: Config, s: State, w: nat, step: Step)
    requires Safe(c, s) && Jammed(c, s, w) && Enabled(c, s, step)
    ensures Jammed(c, Apply(c, s, step), w)
  {
    hide Partition, Counters, WorkersShape, ItemBytes, PreparedBytes, Config.ReadyByteCap, Taken, RawBytes, Compressed;
    hide Fresh, InsertAll, LimitHit, Config.Raw, WriterShape, Indexes;
    HeldKeepsNextAway(c, s, w);
  }

  /** Whatever happens afterwards, the chunk stays where it is, it is never written, and the writer never leaves. */
  lemma {:induction false} JammedForever(c: Config, s: State, w: nat, steps: seq<Step>, s': State)
    requires Safe(c, s) && Jammed(c, s, w) && Path(c, s, steps, s')
    ensures Jammed(c, s', w) && !s'.writer.Exited?
    decreases |steps|
  {
    hide Safe, Enabled, Apply, Shut, Indexes;
    if steps != [] {
      JammedStep(c, s, w, steps[0]);
      SafeStep(c, s, steps[0]);
      JammedForever(c, Apply(c, s, steps[0]), w, steps[1..], s');
    }
  }

  // ---- Which inputs jam --------------------------------------------------------------------------

  /** The sizes of the chunks `lo..hi` from the CPU coder. */
  function CpuBytes(c: Config, lo: nat, hi: nat): nat {
    if hi <= lo then 0
    else CpuBytes(c, lo, hi - 1) + if hi - 1 < |c.chunks| then c.chunks[hi - 1].cpuSize else 0
  }

  /** The indexes `lo..hi`. */
  function Span(lo: nat, hi: nat): (r: seq<nat>)
    requires lo <= hi
    ensures |r| == hi - lo && forall i :: 0 <= i < |r| ==> r[i] == lo + i
  {
    seq(hi - lo, i requires 0 <= i < hi - lo => lo + i)
  }

  /** The end of the chunks that may be in flight together with chunk `n`. */
  function WindowEnd(c: Config, n: nat): nat {
    match Width(c)
    case None => |c.chunks|
    case Some(k) => if n + k < |c.chunks| then n + k else |c.chunks|
  }

  /** Worker `w` can take the chunks from `n` on, one of them or a batch, and make `items` of them, worker `v` can
      compress the chunks behind them, and those that may be in flight together leave no room. */
  ghost predicate Overfull(c: Config, n: nat, items: seq<Item>, w: nat, v: nat) {
    && c.Valid() && w < c.WorkerCount() && v < c.cpuWorkers && v != w
    && items != [] && n + |items| <= WindowEnd(c, n) && Indexes(items) == Span(n, n + |items|)
    && (c.IsGpu(w) ==> ItemBytes(items) > 0)
    && (forall k :: 0 <= k < |items| ==> if c.IsGpu(w) then ItemOk(c, items[k]) else CpuItem(c, items[k]))
    && (if c.IsGpu(w) then |items| <= c.batchLimit && forall i :: n <= i < n + |items| ==> c.Eligible(i)
        else |items| == 1)
    && Shut(c, w, CpuBytes(c, n + |items|, WindowEnd(c, n)), items)
  }

  lemma OverfullHas(c: Config, n: nat, items: seq<Item>, w: nat, v: nat)
    requires Overfull(c, n, items, w, v)
    ensures c.Valid() && w < c.WorkerCount() && v < c.cpuWorkers && v != w && items != []
    ensures c.IsGpu(w) ==> ItemBytes(items) > 0
    ensures n + |items| <= WindowEnd(c, n) <= |c.chunks| && Indexes(items) == Span(n, n + |items|)
    ensures Shut(c, w, CpuBytes(c, n + |items|, WindowEnd(c, n)), items)
    ensures Compressed(c, w, Span(n, n + |items|), items)
    ensures Taken(c, w, Span(n, n + |items|)) == (Span(n, n + |items|), [])
  {
    hide Config.Valid, ItemBytes, CpuBytes, Width, TakeBatch, Config.ReadyByteCap;
    var queue := Span(n, n + |items|);
    if c.IsGpu(w) {
      TakesAll(c, queue, c.batchLimit);
    } else {
      assert queue == [queue[0]] && queue[1..] == [];
    }
  }

  /** A batch takes a whole queue of eligible tasks. */
  lemma {:induction false} TakesAll(c: Config, queue: seq<nat>, limit: nat)
    requires |queue| <= limit && forall k :: 0 <= k < |queue| ==> c.Eligible(queue[k])
    ensures TakeBatch(c, queue, limit) == (queue, [])
    decreases |queue|
  {
    hide Config.Eligible;
    if queue != [] {
      TakesAll(c, queue[1..], limit - 1);
      assert [queue[0]] + queue[1..] == queue;
    }
  }

  /** Nothing is ready, and the chunks from `n` to `j` are in the queue. */
  ghost predicate Queued(c: Config, s: State, n: nat, j: nat) {
    && n <= j && s.producer.AtGate? && s.read == s.total == j && s.queue == Span(n, j) && !s.closed
    && s.workers == Idle(c) && s.ready == map[] && s.readyBytes == 0
    && s.writer.Popping? && s.next == |s.out| == n
  }

  /** The chunks from `n` on are with worker `w`, and those behind them up to `j` are ready. */
  ghost predicate Crowded(c: Config, s: State, n: nat, j: nat, items: seq<Item>, w: nat) {
    && w < c.WorkerCount() && s.producer.AtGate? && s.read == s.total == j && s.queue == [] && !s.closed
    && s.workers == Idle(c)[w := Publishing(items)]
    && (forall k :: k in s.ready ==> n + |items| <= k < j) && s.readyBytes == CpuBytes(c, n + |items|, j)
    && s.writer.Popping? && s.next == |s.out| == n
  }

  /** Within the window the producer may go on. */
  lemma GateAllows(c: Config, run: seq<Step>, s: State, n: nat, j: nat)
    requires c.Valid() && Reaches(c, run, s) && s.read == s.total == j && s.writer.Popping? && s.next == |s.out| == n
    requires n <= j < WindowEnd(c, n)
    ensures !LimitHit(c, s)
  {
    hide Reaches, Held, UpTo, InHand, Partition, WorkersShape, WriterShape, ProducerShape, RawBetween, RawBytes;
    hide ReadyBytes, ByteWidth, Config.Valid;
    SafeOnEveryRun(c, run, s);
    ChunksHaveSize(c);
    FullChunks(c, n, j);
  }

  lemma ChunksHaveSize(c: Config)
    requires c.Valid() && c.chunks != []
    ensures c.chunkSize > 0
  {
    assert c.chunks[0].raw > 0;
  }

  /** The producer fills the queue with the chunks from `n` to `j`. */
  lemma {:induction false} FillQueue(c: Config, n: nat, j: nat) returns (run: seq<Step>, s: State)
    requires c.Valid() && n <= j <= WindowEnd(c, n)
    ensures Reaches(c, run, s) && Queued(c, s, n, j)
    decreases j
  {
    hide Reaches, Config.ReadyByteCap, LimitHit, Config.Raw, Config.Valid, Width;
    if j == n {
      run, s := OneByOne(c, n);
      assert s.queue == Span(n, j);
    } else {
      run, s := FillQueue(c, n, j - 1);
      GateAllows(c, run, s, n, j - 1);
      run, s := Produce(c, run, s);
      assert s.queue == Span(n, j);
    }
  }

  /** The worker takes them. */
  lemma TakesFirst(c: Config, n: nat, items: seq<Item>, w: nat, v: nat) returns (run: seq<Step>, s: State)
    requires Overfull(c, n, items, w, v)
    ensures Reaches(c, run, s) && Crowded(c, s, n, n + |items|, items, w)
  {
    hide Reaches, Config.ReadyByteCap, Config.Raw, RawBytes, ItemOk, Overfull, Compressed, Shut, Taken, ItemBytes;
    hide Config.Valid, Width;
    OverfullHas(c, n, items, w, v);
    OpenGate(c);
    run, s := FillQueue(c, n, n + |items|);
    run, s := Extend(c, run, s, PassReadyGate(w));
    run, s := Extend(c, run, s, TakeTasks(w));
    run, s := Extend(c, run, s, Compress(w, items));
    assert s.workers == Idle(c)[w := Publishing(items)];
  }

  lemma ShutWhenFull(c: Config, w: nat, readyBytes: nat, items: seq<Item>)
    requires readyBytes >= c.ReadyByteCap() && (c.IsGpu(w) ==> ItemBytes(items) > 0)
    ensures Shut(c, w, readyBytes, items)
  {
  }

  /** The other worker fills the gate with the chunks behind them. */
  lemma {:induction false} Crowd(c: Config, n: nat, j: nat, items: seq<Item>, w: nat, v: nat,
      run0: seq<Step>, s0: State)
    returns (run: seq<Step>, s: State)
    requires Overfull(c, n, items, w, v) && Reaches(c, run0, s0) && Crowded(c, s0, n, j, items, w)
    requires n + |items| <= j <= WindowEnd(c, n)
    ensures Reaches(c, run, s) && Jammed(c, s, w) && s.workers[w] == Publishing(items)
    decreases WindowEnd(c, n) - j
  {
    hide Reaches, Config.ReadyByteCap, Config.Raw, ItemOk, Overfull, Shut, Compressed, Taken, ItemBytes, Config.Valid;
    hide LimitHit, Width;
    OverfullHas(c, n, items, w, v);
    if s0.readyBytes >= c.ReadyByteCap() || j == WindowEnd(c, n) {
      run, s := run0, s0;
      if s0.readyBytes >= c.ReadyByteCap() {
        ShutWhenFull(c, w, s0.readyBytes, items);
      }
      assert Indexes(items)[0] == n;
    } else {
      GateAllows(c, run0, s0, n, j);
      run, s := Produce(c, run0, s0);
      run, s := CompressOne(c, run, s, v);
      run, s := Crowd(c, n, j + 1, items, w, v, run, s);
    }
  }

  /** The pipeline can jam whenever some chunks that a worker takes, and those that may be in flight with them, overfill
      the gate, whatever the limits are. */
  lemma JamIsReached(c: Config, n: nat, items: seq<Item>, w: nat, v: nat) returns (run: seq<Step>, s: State)
    requires Overfull(c, n, items, w, v)
    ensures Reaches(c, run, s) && Jammed(c, s, w) && s.workers[w] == Publishing(items)
  {
    hide Reaches, Config.ReadyByteCap, ItemOk, Crowded, Config.Valid, Shut, Compressed, CpuItem, ItemBytes, Taken;
    hide Width;
    OverfullHas(c, n, items, w, v);
    run, s := TakesFirst(c, n, items, w, v);
    run, s := Crowd(c, n, n + |items|, items, w, v, run, s);
  }

  /** Three octets and two, one chunk for the GPU: a batch of five octets jams behind a gate of six. */
  lemma SmallBatchJams() returns (c: Config, run: seq<Step>, s: State)
    ensures c.Valid() && Reaches(c, run, s) && Jammed(c, s, 1)
    ensures ItemBytes(s.workers[1].items) == 5 && c.ReadyByteCap() == 6
  {
    hide Reaches, Jammed;
    c := Config([Chunk(3, 5, 5, 9), Chunk(2, 4, 4, 4)], 3, 1, true, 3, 16, 2, 0);
    var items := [GpuItemOf(c, 0)];
    assert CpuBytes(c, 1, 2) == 4;
    assert ItemBytes(items[..0]) == 0 && Indexes(items) == Span(0, 1);
    run, s := JamIsReached(c, 0, items, 1, 0);
  }

  // ---- Which sizes never jam ---------------------------------------------------------------------

  function WithInput(options: Config, chunks: seq<Chunk>): Config {
    options.(chunks := chunks)
  }

  ghost predicate CanEnd(c: Config, s: State) {
    exists steps, s' :: Path(c, s, steps, s') && s'.writer.Exited?
  }

  /** Every run on every input whose compressed chunks have at most `m` octets can go on to its end. */
  ghost predicate AllInputsEnd(options: Config, m: nat) {
    forall chunks, run, s ::
      Reaches(WithInput(options, chunks), run, s) && WithInput(options, chunks).Valid()
      && SizesUpTo(WithInput(options, chunks), m)
      ==> CanEnd(WithInput(options, chunks), s)
  }

  lemma {:induction false} GoingOnEveryRun(c: Config, run: seq<Step>, s: State)
    requires c.Valid() && Reaches(c, run, s)
    ensures Going(c, s)
    decreases |run|
  {
    hide Safe, Enabled, Apply, Going, Config.Valid;
    if run == [] {
      GoingInit(c);
    } else {
      var last := run[|run| - 1];
      var before :| Reaches(c, run[..|run| - 1], before) && Enabled(c, before, last) && s == Apply(c, before, last);
      GoingOnEveryRun(c, run[..|run| - 1], before);
      SafeOnEveryRun(c, run[..|run| - 1], before);
      GoingStep(c, before, last);
    }
  }

  lemma SmallEnds(c: Config, m: nat, run: seq<Step>, s: State)
    requires Ends(c, m) && Reaches(c, run, s)
    ensures CanEnd(c, s)
  {
    hide Reaches, Path, Safe, Going, Ends;
    EndsIsValid(c, m);
    SafeOnEveryRun(c, run, s);
    GoingOnEveryRun(c, run, s);
    var steps, s' := ReachesEnd(c, s, m);
  }

  /** Full chunks, each compressed to `m` octets. */
  function Grown(k: nat, size: nat, m: nat): (r: seq<Chunk>)
    ensures |r| == k && forall i :: 0 <= i < k ==> r[i] == Chunk(size, m, m, m)
  {
    seq(k, i => Chunk(size, m, m, m))
  }

  lemma {:induction false} GrownBytes(c: Config, m: nat, lo: nat, hi: nat)
    requires lo <= hi <= |c.chunks| && forall i :: 0 <= i < |c.chunks| ==> c.chunks[i].cpuSize == m
    ensures CpuBytes(c, lo, hi) == (hi - lo) * m
  {
    if lo < hi {
      GrownBytes(c, m, lo, hi - 1);
      assert (hi - lo) * m == (hi - 1 - lo) * m + m;
    }
  }

  /** The options as they are checked, for some input. */
  predicate OptionsOk(options: Config) {
    options.cpuWorkers >= 1 && options.batchLimit >= 1 && options.chunkSize >= 1
  }

  predicate OneWorker(options: Config) {
    options.cpuWorkers == 1 && !options.GpuWorks()
  }

  /** How many chunks it takes to overfill the gate. */
  function Enough(options: Config): nat {
    match Width(options)
    case None => options.ReadyByteCap() + 1
    case Some(k) => k
  }

  lemma Overfills(options: Config, m: nat)
    requires OptionsOk(options) && !WideEnough(options, m)
    ensures var k := Enough(options);
            && k >= 1 && m > 0
            && if options.GpuWorks() then k * m > options.ReadyByteCap() else (k - 1) * m >= options.ReadyByteCap()
  {
    hide Config.ReadyByteCap, ByteWidth;
    var cap, k := options.ReadyByteCap(), Enough(options);
    assert k >= 1 by {
      assert 0 * options.chunkSize == 0;
    }
    CapIsPositive(options);
    if Width(options).None? {
      MulLess(1, m, cap);
      assert m * cap == cap * m && (cap + 1) * m == cap * m + m;
    }
  }

  lemma CapIsPositive(options: Config)
    requires OptionsOk(options)
    ensures options.ReadyByteCap() > 0
  {
    assert WithInput(options, []).Valid();
    OpenGate(WithInput(options, []));
    SameGate(options, []);
  }

  lemma SameGate(options: Config, chunks: seq<Chunk>)
    ensures var c := WithInput(options, chunks);
            && c.ReadyByteCap() == options.ReadyByteCap() && Width(c) == Width(options)
            && c.GpuWorks() == options.GpuWorks()
  {
  }

  lemma LargeJams(options: Config, m: nat) returns (run: seq<Step>, s: State, w: nat)
    requires OptionsOk(options) && !OneWorker(options) && !WideEnough(options, m)
    ensures var c := WithInput(options, Grown(Enough(options), options.chunkSize, m));
            c.Valid() && SizesUpTo(c, m) && Reaches(c, run, s) && Safe(c, s) && Jammed(c, s, w)
  {
    hide Reaches, Safe, Jammed, Config.ReadyByteCap, Width;
    var k := Enough(options);
    var c := WithInput(options, Grown(k, options.chunkSize, m));
    Overfills(options, m);
    SameGate(options, c.chunks);
    GrownBytes(c, m, 1, k);
    var items := [CpuItemOf(c, 0)];
    assert ItemBytes(items[..0]) == 0 && Indexes(items) == Span(0, 1);
    assert m + (k - 1) * m == k * m;
    w := if c.GpuWorks() then c.cpuWorkers else 0;
    run, s := JamIsReached(c, 0, items, w, if c.GpuWorks() then 0 else 1);
    SafeOnEveryRun(c, run, s);
  }

  /** For all options: every run on every input with compressed chunks of at most `m` octets can go on to its end,
      exactly when a single worker does all the work or the gate is wide enough for the chunks that may be in flight. */
  lemma AllInputsEndIff(options: Config, m: nat)
    requires OptionsOk(options)
    ensures AllInputsEnd(options, m) <==> OneWorker(options) || WideEnough(options, m)
  {
    hide Reaches, Path, Safe, Jammed, SizesUpTo, Config.ReadyByteCap, Width;
    if OneWorker(options) || WideEnough(options, m) {
      forall chunks, run, s |
        Reaches(WithInput(options, chunks), run, s) && WithInput(options, chunks).Valid()
        && SizesUpTo(WithInput(options, chunks), m)
        ensures CanEnd(WithInput(options, chunks), s)
      {
        SameGate(options, chunks);
        SmallEnds(WithInput(options, chunks), m, run, s);
      }
    } else {
      var run, s, w := LargeJams(options, m);
      var c := WithInput(options, Grown(Enough(options), options.chunkSize, m));
      forall steps, s' | Path(c, s, steps, s')
        ensures !s'.writer.Exited?
      {
        JammedForever(c, s, w, steps, s');
      }
      assert !CanEnd(c, s);
    }
  }

  // ---- The same in the numbers of the options ----------------------------------------------------

  /** The ready gate in numbers: a byte limit, but at least one full chunk; otherwise as many full chunks as the chunk
      limit allows; without limits four full chunks for every CPU worker. */
  lemma GateInNumbers(options: Config)
    requires OptionsOk(options)
    ensures options.maxInflightBytes > 0 ==>
              && options.ReadyByteCap() >= options.maxInflightBytes && options.ReadyByteCap() >= options.chunkSize
              && (options.ReadyByteCap() == options.maxInflightBytes || options.ReadyByteCap() == options.chunkSize)
    ensures options.maxInflightBytes == 0 && options.maxInflightChunks > 0 ==>
              options.ReadyByteCap() == options.maxInflightChunks * options.chunkSize
    ensures options.maxInflightBytes == 0 && options.maxInflightChunks == 0 ==>
              options.ReadyByteCap() == 4 * (options.cpuWorkers * options.chunkSize)
  {
    assert options.chunkSize * options.cpuWorkers * 4 == 4 * (options.cpuWorkers * options.chunkSize);
  }

  /** Under a limit of `k` chunks: with a GPU worker that gets tasks, every run on every input can end exactly when no
      chunk grows by its compression; without one, exactly when `k - 1` compressed chunks are shorter than `k` full
      ones, or a single worker does all the work. */
  lemma ChunkLimitEndsIff(options: Config, m: nat)
    requires OptionsOk(options) && options.maxInflightBytes == 0 && options.maxInflightChunks > 0
    ensures var k := options.maxInflightChunks;
            AllInputsEnd(options, m) <==>
              OneWorker(options)
              || (if options.GpuWorks() then m <= options.chunkSize else (k - 1) * m < k * options.chunkSize)
  {
    hide AllInputsEnd, OneWorker, Config.ReadyByteCap;
    AllInputsEndIff(options, m);
    GateInNumbers(options);
    MulOrder(options.maxInflightChunks, m, options.chunkSize);
  }

  lemma MulOrder(k: nat, a: nat, b: nat)
    requires k >= 1
    ensures k * a <= k * b <==> a <= b
  {
    if a <= b {
      assert k * (b - a) >= 0;
    } else {
      assert k * (a - b) >= 1;
    }
  }

  /** Under a limit of at most one full chunk in octets, whose width is one: with a GPU worker that gets tasks, every
      run on every input can end exactly when no chunk grows by its compression; without one, always. */
  lemma ByteLimitEndsIff(options: Config, m: nat)
    requires OptionsOk(options) && 0 < options.maxInflightBytes <= options.chunkSize && options.maxInflightChunks == 0
    ensures AllInputsEnd(options, m) <==> OneWorker(options) || !options.GpuWorks() || m <= options.chunkSize
  {
    hide AllInputsEnd, OneWorker, Config.ReadyByteCap;
    AllInputsEndIff(options, m);
    GateInNumbers(options);
    assert ByteWidth(options) == 1 by {
      assert 0 * options.chunkSize < options.maxInflightBytes && 1 * options.chunkSize >= options.maxInflightBytes;
    }
    assert (1 - 1) * m == 0 && 1 * m == m;
  }
}
