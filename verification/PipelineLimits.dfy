/** How many chunks the limits of the compression pipeline let be in flight. */
module PipelineLimits {
  import opened Options
  import opened Pipeline
  import opened PipelineSafety
  import opened PipelineRuns

  /** How many chunks reach a byte limit: the reader fills every chunk but the last. */
  function ByteWidth(c: Config): (k: nat)
    ensures c.chunkSize > 0 ==> forall j: nat :: j * c.chunkSize < c.maxInflightBytes ==> j < k
    ensures c.chunkSize > 0 ==> forall j: nat :: j < k ==> j * c.chunkSize < c.maxInflightBytes
  {
    if c.chunkSize == 0 then 0 else CeilDiv(c.maxInflightBytes, c.chunkSize)
  }

  function CeilDiv(a: nat, b: nat): (k: nat)
    requires b > 0
    ensures forall j: nat :: j < k <==> j * b < a
  {
    var k := (a + b - 1) / b;
    CeilDivIs(a, b, k);
    k
  }

  lemma CeilDivIs(a: nat, b: nat, k: nat)
    requires b > 0 && k == (a + b - 1) / b
    ensures forall j: nat :: j < k <==> j * b < a
  {
    assert k * b <= a + b - 1 < k * b + b;
    forall j: nat
      ensures j < k <==> j * b < a
    {
      if j < k {
        Scale(j + 1, k, b);
      } else {
        Scale(k, j, b);
      }
    }
  }

  lemma Scale(i: nat, j: nat, b: nat)
    requires i <= j
    ensures i * b <= j * b && (i + 1) * b == i * b + b
  {
  }

  /** The number of chunks that may be in flight; none when there is no limit. */
  function Width(c: Config): Option<nat> {
    if c.maxInflightChunks == 0 && c.maxInflightBytes == 0 then None
    else if c.maxInflightBytes == 0 then Some(c.maxInflightChunks)
    else if c.maxInflightChunks == 0 then Some(ByteWidth(c))
    else Some(if c.maxInflightChunks <= ByteWidth(c) then c.maxInflightChunks else ByteWidth(c))
  }

  // ---- The byte limit in chunks ------------------------------------------------------------------

  lemma {:induction false} FullChunks(c: Config, lo: nat, hi: nat)
    requires c.Valid() && lo <= hi < |c.chunks|
    ensures RawBetween(c, lo, hi) == (hi - lo) * c.chunkSize
  {
    if lo < hi {
      FullChunks(c, lo, hi - 1);
      Scale(hi - 1 - lo, hi - lo, c.chunkSize);
    }
  }

  /** While more is read, the chunks that are not released stay below the width of the byte limit. */
  ghost predicate Narrow(c: Config, s: State) {
    c.maxInflightBytes > 0 && c.chunkSize > 0 ==>
      && s.read - FirstHeld(s) <= ByteWidth(c)
      && (s.producer.Reading? && s.read < |c.chunks| ==> s.read - FirstHeld(s) < ByteWidth(c))
  }

  lemma NarrowGate(c: Config, s: State)
    requires c.Valid() && Safe(c, s) && s.producer.AtGate? && !LimitHit(c, s) && s.read < |c.chunks|
    requires c.maxInflightBytes > 0 && c.chunkSize > 0
    ensures s.read - FirstHeld(s) < ByteWidth(c)
  {
    hide Held, UpTo, InHand, Partition, WorkersShape, RawBetween, ByteWidth, RawBytes, ReadyBytes;
    if FirstHeld(s) < s.read {
      FullChunks(c, FirstHeld(s), s.read);
      var j: nat := s.read - FirstHeld(s);
      assert j * c.chunkSize < c.maxInflightBytes;
    } else {
      assert 0 * c.chunkSize < c.maxInflightBytes;
    }
  }

  lemma NarrowStep(c: Config, s: State, step: Step)
    requires c.Valid() && Safe(c, s) && Narrow(c, s) && Enabled(c, s, step)
    ensures Narrow(c, Apply(c, s, step))
  {
    hide Held, UpTo, InHand, Partition, Counters, WorkersShape, Taken, Compressed, Fresh, InsertAll, RawBytes, LimitHit;
    hide ItemBytes, PreparedBytes, Config.ReadyByteCap, Config.Raw, Config.Valid, ByteWidth;
    if step.PassGate? && s.read < |c.chunks| && c.maxInflightBytes > 0 && c.chunkSize > 0 {
      NarrowGate(c, s);
    }
  }

  // ---- A GPU worker without work -----------------------------------------------------------------

  /** When no chunk is large enough for the GPU, its worker never holds one. */
  ghost predicate GpuIdle(c: Config, s: State) {
    !c.GpuWorks() ==> forall w: nat ::
      WorkerAt(s, w) && c.IsGpu(w) ==> !s.workers[w].Busy? && !s.workers[w].Publishing?
  }

  lemma {:induction false} NoneEligible(c: Config, queue: seq<nat>, limit: nat)
    requires c.Valid() && !c.GpuWorks() && c.gpu
    ensures TakeBatch(c, queue, limit).0 == []
    decreases |queue|
  {
    if queue != [] && limit > 0 {
      NoneEligible(c, queue[1..], limit);
    }
  }

  lemma GpuIdleStep(c: Config, s: State, step: Step)
    requires c.Valid() && GpuIdle(c, s) && Enabled(c, s, step)
    ensures GpuIdle(c, Apply(c, s, step))
  {
    hide TakeBatch, Compressed, Fresh, InsertAll, RawBytes, LimitHit, ItemBytes, PreparedBytes, Config.ReadyByteCap;
    hide Config.Valid, Config.Raw;
    if step.TakeTasks? && !c.GpuWorks() && c.IsGpu(step.w) {
      NoneEligible(c, s.queue, c.batchLimit);
    }
  }

  // ---- Together ----------------------------------------------------------------------------------

  ghost predicate Bounded(c: Config, s: State) {
    Limited(c, s) && Narrow(c, s) && GpuIdle(c, s)
  }

  lemma BoundedInit(c: Config)
    ensures Bounded(c, Init(c))
  {
    LimitedInit(c);
  }

  lemma BoundedStep(c: Config, s: State, step: Step)
    requires c.Valid() && Safe(c, s) && Bounded(c, s) && Enabled(c, s, step)
    ensures Bounded(c, Apply(c, s, step))
  {
    hide Safe, Limited, Narrow, GpuIdle, Enabled, Apply, Config.Valid;
    LimitedStep(c, s, step);
    NarrowStep(c, s, step);
    GpuIdleStep(c, s, step);
  }

  /** While the writer polls, no more chunks than the width are between reading and writing. */
  lemma InFlight(c: Config, s: State)
    requires c.Valid() && c.chunkSize > 0 && Safe(c, s) && Bounded(c, s) && |s.out| == s.next && !s.writer.Wrote?
    ensures Width(c).Some? ==> s.total - s.next <= Width(c).value
  {
    hide Partition, Counters, WorkersShape, WriterShape, Config.Valid, ByteWidth, GpuIdle;
  }

  function Window(lo: nat, hi: nat): (r: set<nat>)
    ensures forall k :: k in r <==> lo <= k < hi
    decreases hi
  {
    if hi <= lo then {} else Window(lo, hi - 1) + {hi - 1}
  }

  lemma {:induction false} WindowSize(lo: nat, hi: nat)
    ensures |Window(lo, hi)| == if lo < hi then hi - lo else 0
  {
    if lo < hi {
      var last: nat := hi - 1;
      WindowSize(lo, last);
    }
  }

  lemma SubsetSize(a: set<nat>, b: set<nat>)
    requires a <= b
    ensures |a| <= |b|
  {
    assert b == a + (b - a);
  }

  /** What is ready lies behind what has been written, and the chunk the writer waits for is not ready. */
  lemma ReadyIsBehind(c: Config, s: State)
    requires Safe(c, s) && s.next !in s.ready && |s.out| == s.next
    ensures s.ready.Keys <= Window(s.next + 1, s.total)
  {
    hide Held, UpTo, InHand, Partition, Counters, WorkersShape;
    forall k | k in s.ready
      ensures s.next < k < s.total
    {
      PlaceOnce(s, k);
      UpToOnce(|s.out|, k);
    }
  }
}
