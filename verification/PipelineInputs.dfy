/** Which single inputs can jam the compression pipeline when only CPU workers compress. */
module PipelineInputs {
  import opened Pipeline
  import opened PipelineSafety
  import opened PipelineInvariant
  import opened PipelineRuns
  import opened PipelineLimits
  import opened PipelineAlone
  import opened PipelineProgress
  import opened PipelineJam

  /** What is ready lies in `lo..hi` and came from the CPU coder. */
  ghost predicate CpuReady(c: Config, ready: map<nat, Item>, lo: nat, hi: nat) {
    forall k :: k in ready ==> lo <= k < hi && k < |c.chunks| && ready[k] == CpuItemOf(c, k)
  }

  lemma {:induction false} ReadyAtMost(c: Config, ready: map<nat, Item>, lo: nat, hi: nat)
    requires CpuReady(c, ready, lo, hi)
    ensures ReadyBytes(ready) <= CpuBytes(c, lo, hi)
    decreases hi
  {
    hide ReadyBytes;
    if hi <= lo {
      assert ready == map[];
      NothingIsZero();
    } else {
      var last: nat := hi - 1;
      if last in ready {
        RemoveReady(ready, last);
        ReadyAtMost(c, ready - {last}, lo, last);
      } else {
        ReadyAtMost(c, ready, lo, last);
      }
    }
  }

  lemma NothingIsZero()
    ensures ReadyBytes(map[]) == 0
  {
    var none: map<nat, Item> := map[];
    assert none.Keys == {};
  }

  lemma {:induction false} CpuBytesGrow(c: Config, lo: nat, hi: nat, hi': nat)
    requires hi <= hi'
    ensures CpuBytes(c, lo, hi) <= CpuBytes(c, lo, hi')
    decreases hi'
  {
    if hi < hi' {
      CpuBytesGrow(c, lo, hi, hi' - 1);
    }
  }

  lemma ReadyIsCpu(c: Config, s: State)
    requires !c.gpu && Safe(c, s) && s.next !in s.ready && |s.out| == s.next
    ensures CpuReady(c, s.ready, s.next + 1, s.total)
  {
    hide Partition, Counters, ProducerShape;
    ReadyIsBehind(c, s);
    forall k | k in s.ready
      ensures s.next + 1 <= k < s.total && k < |c.chunks| && s.ready[k] == CpuItemOf(c, k)
    {
      assert k in Window(s.next + 1, s.total);
      assert ItemOk(c, s.ready[k]);
    }
  }

  lemma JammedHas(c: Config, s: State, w: nat)
    requires Safe(c, s) && !c.gpu && Jammed(c, s, w)
    ensures s.readyBytes >= c.ReadyByteCap() && s.readyBytes == ReadyBytes(s.ready) && s.next !in s.ready
    ensures |s.out| == s.next < s.total <= |c.chunks| && !s.writer.Wrote?
    ensures WorkerAt(s, w) && s.next in HeldBy(s.workers[w])
  {
    hide Partition, WorkersShape, Config.ReadyByteCap, ItemBytes, ReadyBytes;
    HeldKeepsNextAway(c, s, w);
    PartitionOf(c, s);
    OutWasCounted(c, s);
  }

  /** A jam leaves no room behind the chunk that is held. */
  lemma JamNeedsBytes(c: Config, s: State, w: nat)
    requires c.Valid() && !c.gpu && Safe(c, s) && Bounded(c, s) && Jammed(c, s, w)
    ensures FilledBehind(c, s.next)
  {
    hide Safe, Bounded, Jammed, Config.ReadyByteCap, CpuReady, ReadyBytes, Width, Config.Valid;
    JammedHas(c, s, w);
    SomeChunk(c, s);
    InFlight(c, s);
    ReadyIsCpu(c, s);
    ReadyAtMost(c, s.ready, s.next + 1, s.total);
    CpuBytesGrow(c, s.next + 1, s.total, WindowEnd(c, s.next));
  }

  /** A single worker does not jam. */
  lemma OneDoesNotJam(c: Config, s: State, w: nat)
    requires Alone(c) && !c.gpu && Safe(c, s) && InLine(s)
    ensures !Jammed(c, s, w)
  {
    hide Safe, HeldBy, Config.ReadyByteCap;
    if Jammed(c, s, w) {
      JammedHas(c, s, w);
      WorkerZero(c, s, w);
      ReadyIsBehind(c, s);
      CountersOf(c, s);
      EmptyIsZero(c, s);
      OpenGate(c);
    }
  }

  lemma WorkerZero(c: Config, s: State, w: nat)
    requires Alone(c) && !c.gpu && Safe(c, s) && WorkerAt(s, w)
    ensures w == 0
  {
    hide Partition, Counters, ProducerShape, WriterShape, WorkerShape;
  }

  lemma CountersOf(c: Config, s: State)
    requires Safe(c, s)
    ensures Counters(c, s)
  {
    hide Counters;
  }

  /** Some run jams. */
  ghost predicate CanJam(c: Config) {
    exists run, s, w :: Reaches(c, run, s) && Jammed(c, s, w)
  }

  /** The chunks that may be in flight behind chunk `n` fill the gate. */
  ghost predicate FilledBehind(c: Config, n: nat) {
    n < |c.chunks| && CpuBytes(c, n + 1, WindowEnd(c, n)) >= c.ReadyByteCap()
  }

  lemma FilledIsOverfull(c: Config, n: nat)
    requires c.Valid() && !c.gpu && c.cpuWorkers >= 2 && FilledBehind(c, n)
    ensures Overfull(c, n, [CpuItemOf(c, n)], 0, 1)
  {
    hide Config.ReadyByteCap, ByteWidth;
    ChunksHaveSize(c);
    OpenGate(c);
    assert 0 * c.chunkSize == 0;
    var items := [CpuItemOf(c, n)];
    assert Indexes(items) == Span(n, n + 1);
  }

  /** With CPU workers only, under any limits: an input can jam the pipeline exactly when there are two workers and the
      chunks that may be in flight behind some chunk fill the gate. */
  lemma CpuJamIff(c: Config)
    requires c.Valid() && !c.gpu
    ensures CanJam(c) <==> c.cpuWorkers >= 2 && exists n :: FilledBehind(c, n)
  {
    hide Reaches, Safe, Going, Jammed, FilledBehind, Config.Valid, Config.ReadyByteCap;
    if c.cpuWorkers >= 2 && exists n :: FilledBehind(c, n) {
      var n :| FilledBehind(c, n);
      FilledIsOverfull(c, n);
      var items := [CpuItemOf(c, n)];
      var run, s := JamIsReached(c, n, items, 0, 1);
    } else {
      forall run, s, w | Reaches(c, run, s)
        ensures !Jammed(c, s, w)
      {
        SafeOnEveryRun(c, run, s);
        GoingOnEveryRun(c, run, s);
        NoJam(c, s, w);
      }
    }
  }

  lemma NoJam(c: Config, s: State, w: nat)
    requires c.Valid() && !c.gpu && Safe(c, s) && Going(c, s)
    requires c.cpuWorkers < 2 || forall n :: !FilledBehind(c, n)
    ensures !Jammed(c, s, w)
  {
    hide Safe, Bounded, InLine, Jammed, Config.ReadyByteCap;
    if Alone(c) {
      OneDoesNotJam(c, s, w);
    } else if Jammed(c, s, w) {
      JamNeedsBytes(c, s, w);
    }
  }
}
