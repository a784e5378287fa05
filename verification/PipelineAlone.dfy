/** A single CPU worker keeps the order: chunks become ready as they were read, whatever the limits are. */
module PipelineAlone {
  import opened Pipeline
  import opened PipelineSafety
  import opened PipelineInvariant
  import opened PipelineLimits

  /** One CPU worker, and no GPU worker that gets tasks. */
  predicate Alone(c: Config) {
    c.Valid() && c.cpuWorkers == 1 && !c.GpuWorks()
  }

  /** What is ready comes before what the worker holds, and both come before the queue. */
  ghost predicate InLine(s: State) {
    && s.workers != [] && (forall w :: 1 <= w < |s.workers| ==> HeldBy(s.workers[w]) == multiset{})
    && (forall i, j :: 0 <= i < j < |s.queue| ==> s.queue[i] < s.queue[j])
    && (forall k, j :: k in HeldBy(s.workers[0]) && j in s.queue ==> k < j)
    && (forall k, j :: k in s.ready && j in s.queue ==> k < j)
    && forall k, j :: k in s.ready && j in HeldBy(s.workers[0]) ==> k < j
  }

  lemma InLineInit(c: Config)
    requires c.Valid()
    ensures InLine(Init(c))
  {
  }

  /** A chunk that is pushed comes after all others. */
  lemma PushedIsLast(c: Config, s: State)
    requires Safe(c, s) && InLine(s) && s.producer.Pushing?
    ensures forall k :: k in s.ready || k in HeldBy(s.workers[0]) || k in s.queue ==> k < s.read - 1
  {
    hide Held, UpTo, InHand, Partition, Counters, WorkersShape, WriterShape, HeldBy;
    HeldContains(s.workers, 0);
    forall k | k in s.ready || k in HeldBy(s.workers[0]) || k in s.queue
      ensures k < s.read - 1
    {
      PlaceOnce(s, k);
    }
  }

  lemma InLineStep(c: Config, s: State, step: Step)
    requires Alone(c) && Safe(c, s) && GpuIdle(c, s) && InLine(s) && Enabled(c, s, step)
    ensures InLine(Apply(c, s, step))
  {
    hide Safe, InLine, Enabled, Apply, Alone, GpuIdle;
    if IsWorkerStep(step) && step.w > 0 {
      IdleKeepsLine(c, s, step);
    } else if step.PushTask? {
      PushKeepsLine(c, s);
    } else if step.Publish? {
      PublishKeepsLine(c, s);
    } else if step.TakeTasks? {
      TakeKeepsLine(c, s);
    } else if IsWorkerStep(step) {
      WorkerKeepsLine(c, s, step);
    } else {
      OthersKeepLine(c, s, step);
    }
  }

  /** The GPU worker finds nothing to take. */
  lemma IdleKeepsLine(c: Config, s: State, step: Step)
    requires Alone(c) && Safe(c, s) && GpuIdle(c, s) && InLine(s) && Enabled(c, s, step)
    requires IsWorkerStep(step) && step.w > 0
    ensures InLine(Apply(c, s, step))
  {
    hide Partition, Counters, ProducerShape, WriterShape, TakeBatch, Config.Valid, RawBytes, ItemOk, ItemBytes;
    hide Config.ReadyByteCap, Compressed, HeldBy;
    NoneEligible(c, s.queue, c.batchLimit);
    HoldsNothing();
    var s' := Apply(c, s, step);
    assert s'.queue == s.queue && s'.ready == s.ready && s'.workers[0] == s.workers[0];
  }

  lemma PushKeepsLine(c: Config, s: State)
    requires Safe(c, s) && InLine(s) && Enabled(c, s, PushTask)
    ensures InLine(Apply(c, s, PushTask))
  {
    hide Safe, HeldBy, Config.Raw;
    PushedIsLast(c, s);
    var s' := Apply(c, s, PushTask);
    assert s'.queue == s.queue + [s.read - 1] && s'.workers == s.workers && s'.ready == s.ready;
    forall i | 0 <= i < |s.queue|
      ensures s.queue[i] < s.read - 1
    {
      assert s.queue[i] in s.queue;
    }
  }

  lemma PublishKeepsLine(c: Config, s: State)
    requires InLine(s) && Enabled(c, s, Publish(0))
    ensures InLine(Apply(c, s, Publish(0)))
  {
    hide HeldBy, Fresh, InsertAll, PreparedBytes, ItemBytes, Config.ReadyByteCap;
    var items := s.workers[0].items;
    forall k
      ensures k in InsertAll(s.ready, items) <==> k in s.ready || k in HeldBy(s.workers[0])
    {
      InsertAllKnows(s.ready, items, k);
      HeldIndex(items, k);
    }
    HoldsNothing();
  }

  lemma HoldsNothing()
    ensures HeldBy(AtReadyGate) == HeldBy(Taking) == HeldBy(Done) == multiset{}
  {
  }

  lemma WorkerKeepsLine(c: Config, s: State, step: Step)
    requires InLine(s) && Enabled(c, s, step) && IsWorkerStep(step) && step.w == 0
    requires !step.Publish? && !step.TakeTasks?
    ensures InLine(Apply(c, s, step))
  {
    hide ItemOk, CpuItem, Config.ReadyByteCap;
    var s' := Apply(c, s, step);
    assert HeldBy(s'.workers[0]) == HeldBy(s.workers[0]);
  }

  lemma OthersKeepLine(c: Config, s: State, step: Step)
    requires InLine(s) && Enabled(c, s, step) && !IsWorkerStep(step) && !step.PushTask?
    ensures InLine(Apply(c, s, step))
  {
    hide HeldBy, Config.Raw, LimitHit;
    var s' := Apply(c, s, step);
    assert s'.queue == s.queue && s'.workers == s.workers && s'.ready.Keys <= s.ready.Keys;
  }

  lemma TakeKeepsLine(c: Config, s: State)
    requires Alone(c) && InLine(s) && Enabled(c, s, TakeTasks(0))
    ensures InLine(Apply(c, s, TakeTasks(0)))
  {
    hide Taken, RawBytes, HeldBy;
    NothingTaken(c);
    TakesHead(c, s.queue);
    var s' := Apply(c, s, TakeTasks(0));
    assert s'.queue == s.queue[1..] && s'.workers[0] == Busy([s.queue[0]]);
    assert s.queue[0] in s.queue;
  }

  lemma NothingTaken(c: Config)
    requires Alone(c)
    ensures Taken(c, 0, []).0 == []
  {
  }

  /** A CPU worker takes the head of the queue. */
  lemma TakesHead(c: Config, queue: seq<nat>)
    requires Alone(c) && queue != [] && forall i, j :: 0 <= i < j < |queue| ==> queue[i] < queue[j]
    ensures Taken(c, 0, queue) == ([queue[0]], queue[1..])
    ensures HeldBy(Busy([queue[0]])) == multiset{queue[0]}
    ensures forall j :: j in queue[1..] ==> j in queue && queue[0] < j
  {
  }

  lemma HeldIndex(items: seq<Item>, k: nat)
    ensures k in HeldBy(Publishing(items)) <==> exists j :: 0 <= j < |items| && items[j].index == k
  {
    if j :| 0 <= j < |items| && items[j].index == k {
      assert Indexes(items)[j] == k;
    }
  }

  /** While the writer waits for its next chunk, nothing is ready. */
  lemma NothingReady(c: Config, s: State)
    requires Alone(c) && Safe(c, s) && InLine(s) && s.next !in s.ready && |s.out| == s.next < s.total
    requires InHand(s.writer) == multiset{} && !s.producer.Counting? && !s.producer.Pushing?
    ensures s.readyBytes == 0 < c.ReadyByteCap()
  {
    hide UpTo, Partition, Counters, WorkersShape, WriterShape, HeldBy;
    PlaceOnce(s, s.next);
    UpToOnce(|s.out|, s.next);
    ReadyIsBehind(c, s);
    OnlyHolder(s.workers);
    assert s.next in s.queue || s.next in HeldBy(s.workers[0]);
    assert forall k :: k in s.ready ==> k < s.next;
    EmptyIsZero(c, s);
    OpenGate(c);
  }

  lemma {:induction false} OnlyHolder(workers: seq<WorkerPc>)
    requires workers != [] && forall w :: 1 <= w < |workers| ==> HeldBy(workers[w]) == multiset{}
    ensures Held(workers) == HeldBy(workers[0])
    decreases |workers|
  {
    hide HeldBy;
    if |workers| > 1 {
      OnlyHolder(workers[..|workers| - 1]);
    } else {
      assert Held(workers[..0]) == multiset{};
    }
  }

  lemma EmptyIsZero(c: Config, s: State)
    requires Counters(c, s) && forall k :: k !in s.ready
    ensures s.readyBytes == 0
  {
    assert s.ready.Keys == {};
  }

  lemma OpenGate(c: Config)
    requires c.Valid()
    ensures c.ReadyByteCap() > 0
  {
    if c.maxInflightBytes == 0 && c.maxInflightChunks == 0 {
      assert Max(c.chunkSize, 1) * Max(c.cpuWorkers, 1) >= 1;
    }
  }
}
