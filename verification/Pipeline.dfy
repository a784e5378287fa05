/** The compression pipeline as a step system: a producer, workers, an in-order writer and the gates between them.
    Every region under one lock and every atomic access is one step; a wait is a step that is not enabled. */
module Pipeline {
  /** An input chunk and what compressing it yields: its size from the CPU coder, from the GPU coder, and from the GPU
      coder once it has been prepared for the stream. */
  datatype Chunk = Chunk(raw: nat, cpuSize: nat, gpuSize: nat, gpuPrepared: nat)

  datatype Config = Config(
    chunks: seq<Chunk>,
    chunkSize: nat,
    cpuWorkers: nat,
    gpu: bool,
    gpuMin: nat,
    batchLimit: nat,
    maxInflightChunks: nat,
    maxInflightBytes: nat)
  {
    /** There is a CPU worker, and the reader fills every chunk but the last. */
    predicate Valid() {
      && cpuWorkers >= 1 && batchLimit >= 1
      && (forall i :: 0 <= i < |chunks| ==> 0 < chunks[i].raw <= chunkSize)
      && forall i :: 0 <= i < |chunks| - 1 ==> chunks[i].raw == chunkSize
    }

    function WorkerCount(): nat {
      cpuWorkers + if gpu then 1 else 0
    }

    predicate IsGpu(w: nat) {
      gpu && w == cpuWorkers
    }

    function ReadyByteCap(): nat {
      if maxInflightBytes > 0 then Max(maxInflightBytes, Max(chunkSize, 1))
      else if maxInflightChunks > 0 then Max(chunkSize, 1) * maxInflightChunks
      else Max(chunkSize, 1) * Max(cpuWorkers, 1) * 4
    }

    function Raw(i: nat): nat {
      if i < |chunks| then chunks[i].raw else 0
    }

    /** The chunk is large enough for the GPU. */
    predicate Eligible(i: nat) {
      i < |chunks| && chunks[i].raw >= gpuMin
    }

    /** There is a GPU worker, and a full chunk is large enough for it. */
    predicate GpuWorks() {
      gpu && gpuMin <= chunkSize
    }
  }

  function Max(a: nat, b: nat): nat {
    if a >= b then a else b
  }

  function SatSub(a: nat, b: nat): nat {
    if a >= b then a - b else 0
  }

  /** A compressed chunk. The gate of a batch tests `size`; what is ready is counted by the size after preparation. */
  datatype Item = Item(index: nat, size: nat, prepared: nat)

  /** A chunk in the output and whether it was written as the final one. */
  datatype Written = Written(index: nat, final: bool)

  datatype ProducerPc = AtGate | Reading | Counting | Pushing | Stopped

  datatype WorkerPc = AtReadyGate | Taking | Busy(tasks: seq<nat>) | Publishing(items: seq<Item>) | Done

  datatype WriterPc =
    | Popping
    | Got(item: Item)
    | GotTotal(item: Item, seen: nat)
    | Wrote(item: Item)
    | Released(item: Item)
    | Checking
    | CheckingClosed(seen: nat)
    | Exited

  datatype State = State(
    producer: ProducerPc,
    read: nat,
    total: nat,
    queue: seq<nat>,
    queuedBytes: nat,
    closed: bool,
    workers: seq<WorkerPc>,
    ready: map<nat, Item>,
    readyBytes: nat,
    duplicate: bool,
    writer: WriterPc,
    next: nat,
    out: seq<Written>,
    inflight: int)

  ghost function Init(c: Config): State {
    State(AtGate, 0, 0, [], 0, false, seq(c.WorkerCount(), i => AtReadyGate), map[], 0, false, Popping, 0, [], 0)
  }

  datatype Step =
    | PassGate
    | GateClosed
    | ReadChunk
    | ReadEof
    | CountTask
    | PushTask
    | PassReadyGate(w: nat)
    | TakeTasks(w: nat)
    | Leave(w: nat)
    | Compress(w: nat, items: seq<Item>)
    | Publish(w: nat)
    | PopReady
    | FindNothing
    | ReadTotal
    | WriteOut
    | ReleaseBytes
    | StoreWritten
    | CheckTotal
    | CheckClosed

  // ---- The parts of the steps --------------------------------------------------------------------

  predicate LimitHit(c: Config, s: State) {
    || (c.maxInflightChunks > 0 && SatSub(s.total, s.next) >= c.maxInflightChunks)
    || (c.maxInflightBytes > 0 && s.inflight >= c.maxInflightBytes)
  }

  /** A batch: up to `limit` eligible tasks from the front on, and the tasks left in the queue. */
  function TakeBatch(c: Config, queue: seq<nat>, limit: nat): (r: (seq<nat>, seq<nat>))
    ensures |r.0| + |r.1| == |queue|
    decreases |queue|
  {
    if queue == [] || limit == 0 then ([], queue)
    else if c.Eligible(queue[0]) then
      var (batch, rest) := TakeBatch(c, queue[1..], limit - 1);
      ([queue[0]] + batch, rest)
    else
      var (batch, rest) := TakeBatch(c, queue[1..], limit);
      (batch, [queue[0]] + rest)
  }

  /** What a worker takes from the queue, and what it leaves there. */
  function Taken(c: Config, w: nat, queue: seq<nat>): (seq<nat>, seq<nat>) {
    if c.IsGpu(w) then TakeBatch(c, queue, c.batchLimit)
    else if queue == [] then ([], [])
    else ([queue[0]], queue[1..])
  }

  function RawBytes(c: Config, tasks: seq<nat>): nat {
    if tasks == [] then 0 else c.Raw(tasks[0]) + RawBytes(c, tasks[1..])
  }

  function ItemBytes(items: seq<Item>): nat {
    if items == [] then 0 else ItemBytes(items[..|items| - 1]) + items[|items| - 1].size
  }

  function PreparedBytes(items: seq<Item>): nat {
    if items == [] then 0 else PreparedBytes(items[..|items| - 1]) + items[|items| - 1].prepared
  }

  function Indexes(items: seq<Item>): (r: seq<nat>)
    ensures |r| == |items|
  {
    seq(|items|, i requires 0 <= i < |items| => items[i].index)
  }

  /** The coders are given: each chunk of a batch is compressed by the GPU or falls back to the CPU. */
  predicate Compressed(c: Config, w: nat, tasks: seq<nat>, items: seq<Item>) {
    && Indexes(items) == tasks
    && forall k :: 0 <= k < |items| ==> ItemOk(c, items[k]) && (!c.IsGpu(w) ==> CpuItem(c, items[k]))
  }

  function CpuItemOf(c: Config, i: nat): Item
    requires i < |c.chunks|
  {
    Item(i, c.chunks[i].cpuSize, c.chunks[i].cpuSize)
  }

  function GpuItemOf(c: Config, i: nat): Item
    requires i < |c.chunks|
  {
    Item(i, c.chunks[i].gpuSize, c.chunks[i].gpuPrepared)
  }

  predicate CpuItem(c: Config, item: Item) {
    item.index < |c.chunks| && item == CpuItemOf(c, item.index)
  }

  predicate ItemOk(c: Config, item: Item) {
    CpuItem(c, item) || (c.gpu && item.index < |c.chunks| && item == GpuItemOf(c, item.index))
  }

  predicate MayPublish(c: Config, w: nat, s: State, items: seq<Item>) {
    if c.IsGpu(w) then s.readyBytes + ItemBytes(items) <= c.ReadyByteCap()
    else s.readyBytes < c.ReadyByteCap()
  }

  predicate Fresh(ready: map<nat, Item>, items: seq<Item>) {
    && (forall k :: 0 <= k < |items| ==> items[k].index !in ready)
    && forall j, k :: 0 <= j < k < |items| ==> items[j].index != items[k].index
  }

  function InsertAll(ready: map<nat, Item>, items: seq<Item>): map<nat, Item> {
    if items == [] then ready
    else
      var last := items[|items| - 1];
      InsertAll(ready, items[..|items| - 1])[last.index := last]
  }

  // ---- The steps ---------------------------------------------------------------------------------

  predicate WorkerAt(s: State, w: nat) {
    w < |s.workers|
  }

  ghost predicate Enabled(c: Config, s: State, step: Step) {
    match step
    case PassGate => s.producer.AtGate? && !s.closed && !LimitHit(c, s)
    case GateClosed => s.producer.AtGate? && s.closed
    case ReadChunk => s.producer.Reading? && s.read < |c.chunks|
    case ReadEof => s.producer.Reading? && s.read == |c.chunks|
    case CountTask => s.producer.Counting?
    case PushTask => s.producer.Pushing? && s.read > 0
    case PassReadyGate(w) => WorkerAt(s, w) && s.workers[w].AtReadyGate? && s.readyBytes < c.ReadyByteCap()
    case TakeTasks(w) => WorkerAt(s, w) && s.workers[w].Taking? && Taken(c, w, s.queue).0 != []
    case Leave(w) => WorkerAt(s, w) && s.workers[w].Taking? && s.closed && (c.IsGpu(w) || s.queue == [])
    case Compress(w, items) => WorkerAt(s, w) && s.workers[w].Busy? && Compressed(c, w, s.workers[w].tasks, items)
    case Publish(w) => WorkerAt(s, w) && s.workers[w].Publishing? && MayPublish(c, w, s, s.workers[w].items)
    case PopReady => s.writer.Popping? && s.next in s.ready
    case FindNothing => s.writer.Popping? && s.next !in s.ready
    case ReadTotal => s.writer.Got?
    case WriteOut => s.writer.GotTotal?
    case ReleaseBytes => s.writer.Wrote?
    case StoreWritten => s.writer.Released?
    case CheckTotal => s.writer.Checking?
    case CheckClosed => s.writer.CheckingClosed?
  }

  function ApplyProducer(c: Config, s: State, step: Step): State {
    match step
    case PassGate => s.(producer := Reading)
    case ReadChunk => s.(producer := Counting, read := s.read + 1, inflight := s.inflight + c.Raw(s.read))
    case ReadEof => s.(producer := Stopped, closed := true)
    case CountTask => s.(producer := Pushing, total := s.read)
    case PushTask =>
      if s.read == 0 then s
      else s.(producer := AtGate, queue := s.queue + [s.read - 1], queuedBytes := s.queuedBytes + c.Raw(s.read - 1))
    case _ => s.(producer := Stopped)
  }

  function ApplyWorker(c: Config, s: State, step: Step, w: nat): State
    requires WorkerAt(s, w)
  {
    match step
    case PassReadyGate(_) => s.(workers := s.workers[w := Taking])
    case TakeTasks(_) =>
      var (tasks, rest) := Taken(c, w, s.queue);
      s.(workers := s.workers[w := Busy(tasks)], queue := rest,
          queuedBytes := SatSub(s.queuedBytes, RawBytes(c, tasks)))
    case Compress(_, items) => s.(workers := s.workers[w := Publishing(items)])
    case Publish(_) =>
      var pc := s.workers[w];
      if !pc.Publishing? then s
      else if Fresh(s.ready, pc.items) then
        s.(workers := s.workers[w := AtReadyGate], ready := InsertAll(s.ready, pc.items),
           readyBytes := s.readyBytes + PreparedBytes(pc.items))
      else s.(duplicate := true)
    case _ => s.(workers := s.workers[w := Done])
  }

  function ApplyWriter(c: Config, s: State, step: Step): State {
    match step
    case PopReady =>
      if s.next !in s.ready then s
      else
        var item := s.ready[s.next];
        s.(writer := Got(item), ready := s.ready - {s.next}, readyBytes := SatSub(s.readyBytes, item.prepared))
    case ReadTotal => if s.writer.Got? then s.(writer := GotTotal(s.writer.item, s.total)) else s
    case WriteOut =>
      if s.writer.GotTotal? then
        var final := s.closed && s.next + 1 == s.writer.seen;
        s.(writer := Wrote(s.writer.item), out := s.out + [Written(s.writer.item.index, final)])
      else s
    case ReleaseBytes =>
      if s.writer.Wrote? then
        s.(writer := Released(s.writer.item), inflight := s.inflight - c.Raw(s.writer.item.index))
      else s
    case StoreWritten => s.(writer := Popping, next := s.next + 1)
    case CheckTotal => s.(writer := CheckingClosed(s.total))
    case CheckClosed =>
      if s.writer.CheckingClosed? && s.closed && s.next == s.writer.seen then s.(writer := Exited, closed := true)
      else s.(writer := Popping)
    case _ => s.(writer := Checking)
  }

  predicate IsProducerStep(step: Step) {
    step.PassGate? || step.GateClosed? || step.ReadChunk? || step.ReadEof? || step.CountTask? || step.PushTask?
  }

  predicate IsWorkerStep(step: Step) {
    step.PassReadyGate? || step.TakeTasks? || step.Leave? || step.Compress? || step.Publish?
  }

  ghost function Apply(c: Config, s: State, step: Step): State
    requires Enabled(c, s, step)
  {
    if IsProducerStep(step) then ApplyProducer(c, s, step)
    else if IsWorkerStep(step) then ApplyWorker(c, s, step, step.w)
    else ApplyWriter(c, s, step)
  }

  /** The state after a run of steps from the start; none when a step was not enabled. */
  ghost predicate Reaches(c: Config, run: seq<Step>, s: State) {
    if run == [] then s == Init(c)
    else
      var last := run[|run| - 1];
      exists before :: Reaches(c, run[..|run| - 1], before) && Enabled(c, before, last) && s == Apply(c, before, last)
  }
}
