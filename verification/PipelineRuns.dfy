/** Safety of the compression pipeline over whole runs. */
module PipelineRuns {
  import opened Pipeline
  import opened PipelineSafety
  import opened PipelineInvariant

  lemma SafeStep(c: Config, s: State, step: Step)
    requires Safe(c, s) && Enabled(c, s, step)
    ensures Safe(c, Apply(c, s, step))
  {
    hide ProducerShape, WriterShape, WorkersShape, Partition, Counters, Enabled, Apply;
    ProducerShapeStep(c, s, step);
    WriterShapeStep(c, s, step);
    WorkersShapeStep(c, s, step);
    PartitionStep(c, s, step);
    CountersStep(c, s, step);
  }

  lemma SafeInit(c: Config)
    ensures Safe(c, Init(c))
  {
    NoneHeld(Init(c).workers);
    assert UpTo(0) == [];
  }

  /** Safety on every run, whatever the interleaving of CPU and GPU workers: every chunk is in exactly one place,
      the program points fit together, the counters are the true sums, and no chunk is published twice. */
  lemma {:induction false} SafeOnEveryRun(c: Config, run: seq<Step>, s: State)
    requires Reaches(c, run, s)
    ensures Safe(c, s)
    decreases |run|
  {
    hide Safe, Enabled, Apply;
    if run == [] {
      SafeInit(c);
    } else {
      var last := run[|run| - 1];
      var before :| Reaches(c, run[..|run| - 1], before) && Enabled(c, before, last) && s == Apply(c, before, last);
      SafeOnEveryRun(c, run[..|run| - 1], before);
      SafeStep(c, before, last);
    }
  }

  /** No subtraction of a counter ever saturates or wraps: what a step takes off is there. */
  lemma NothingSaturates(c: Config, s: State, step: Step)
    requires Safe(c, s) && Enabled(c, s, step)
    ensures s.next <= s.total && s.inflight >= 0
    ensures step.TakeTasks? ==> RawBytes(c, Taken(c, step.w, s.queue).0) <= s.queuedBytes
    ensures step.PopReady? ==> s.ready[s.next].prepared <= s.readyBytes
    ensures step.ReleaseBytes? ==> c.Raw(s.writer.item.index) <= s.inflight
  {
    hide Held, UpTo, Taken, RawBytes, Fresh, InsertAll, Compressed, ItemBytes, PreparedBytes, LimitHit;
    hide Config.ReadyByteCap, Partition;
    hide ReadyBytes, Config.Raw;
    OutWasRead(s);
    OutWasCounted(c, s);
    match step
    case TakeTasks(w) => TakenSplits(c, w, s.queue);
    case PopReady => RemoveReady(s.ready, s.next);
    case ReleaseBytes =>
      WrittenWasRead(s);
      RawBetweenShift(c, s.next, s.read);
    case _ =>
  }

  lemma OutWasCounted(c: Config, s: State)
    requires ProducerShape(c, s) && WriterShape(s) && Partition(s)
    ensures s.next <= |s.out| <= s.total
  {
    hide Partition;
    OutWasRead(s);
  }

  /** The output holds the chunks in index order, each once. */
  lemma WrittenInOrder(c: Config, s: State)
    requires Safe(c, s)
    ensures |s.out| <= |c.chunks| && forall k :: 0 <= k < |s.out| ==> s.out[k].index == k
  {
    hide Partition, Counters, WorkersShape;
    OutWasRead(s);
  }

  // ---- Limits ------------------------------------------------------------------------------------

  /** What the two gates guarantee. */
  ghost predicate Limited(c: Config, s: State) {
    && (c.maxInflightChunks > 0 ==>
          if s.producer.Reading? || s.producer.Counting? then s.total - s.next < c.maxInflightChunks
          else s.total - s.next <= c.maxInflightChunks)
    && (c.maxInflightBytes > 0 ==>
          if s.producer.Reading? then s.inflight < c.maxInflightBytes
          else s.inflight < c.maxInflightBytes + c.chunkSize + 1)
  }

  lemma LimitedStep(c: Config, s: State, step: Step)
    requires c.Valid() && Safe(c, s) && Limited(c, s) && Enabled(c, s, step)
    ensures Limited(c, Apply(c, s, step))
  {
    hide Held, UpTo, Taken, RawBytes, Fresh, InsertAll, Compressed, ItemBytes, PreparedBytes;
    hide Config.ReadyByteCap, Partition, Counters;
    hide WorkersShape;
    NothingSaturates(c, s, step);
  }

  /** On every run at most `maxInflightChunks` chunks are between reading and writing, and the raw bytes in flight
      exceed their limit by at most one chunk. */
  lemma {:induction false} LimitedOnEveryRun(c: Config, run: seq<Step>, s: State)
    requires c.Valid() && Reaches(c, run, s)
    ensures Limited(c, s)
    decreases |run|
  {
    hide Safe, Enabled, Apply, Limited, Config.Valid;
    if run == [] {
      LimitedInit(c);
    } else {
      var last := run[|run| - 1];
      var before :| Reaches(c, run[..|run| - 1], before) && Enabled(c, before, last) && s == Apply(c, before, last);
      LimitedOnEveryRun(c, run[..|run| - 1], before);
      SafeOnEveryRun(c, run[..|run| - 1], before);
      LimitedStep(c, before, last);
    }
  }

  lemma LimitedInit(c: Config)
    ensures Limited(c, Init(c))
  {
  }
}
