/** Which options let the compression pipeline lose a chunk or misplace the final flag. The writer reads the task count
    and then whether the queue is closed, so both depend on what may be in flight when the producer finds the end. */
module PipelineFlags {
  import opened Pipeline
  import opened PipelineSafety
  import opened PipelineInvariant
  import opened PipelineRuns
  import opened PipelineEnd
  import opened PipelineSchedule

  /** The limits keep the producer from finding the end of the input before the last chunk is out: one chunk in flight
      at a time, or a byte limit that the last chunk reaches on its own. */
  predicate Serial(c: Config) {
    || c.maxInflightChunks == 1
    || (|c.chunks| > 0 && 0 < c.maxInflightBytes <= c.Raw(|c.chunks| - 1))
  }

  /** The limits let the producer find the end of the input while the last two chunks are in flight. */
  predicate RoomForTwo(c: Config) {
    var n := |c.chunks|;
    && n >= 2
    && (c.maxInflightChunks == 0 || c.maxInflightChunks >= 3)
    && (c.maxInflightBytes == 0 || c.Raw(n - 2) + c.Raw(n - 1) < c.maxInflightBytes)
  }

  /** The writer has left, everything is written, and exactly the last chunk is final. */
  ghost predicate Right(c: Config, s: State) {
    && s.writer.Exited? && |s.out| == |c.chunks|
    && forall k :: 0 <= k < |s.out| ==> (s.out[k].final <==> k == |c.chunks| - 1)
  }

  ghost predicate Lost(c: Config, s: State) {
    s.writer.Exited? && |s.out| < |c.chunks|
  }

  /** A chunk before the last one is final. */
  ghost predicate FlaggedEarly(c: Config, s: State) {
    exists k :: 0 <= k < |s.out| && k < |c.chunks| - 1 && s.out[k].final
  }

  // ---- What the gate of the producer means at the end of the input -------------------------------

  lemma {:induction false} RawAtLeast(c: Config, lo: nat, hi: nat)
    requires lo < hi
    ensures RawBetween(c, lo, hi) >= c.Raw(hi - 1)
    ensures lo < hi - 1 ==> RawBetween(c, lo, hi) >= c.Raw(hi - 2) + c.Raw(hi - 1)
  {
    hide Config.Raw;
  }

  /** The producer may go on: so at most a part of the limits is in flight. */
  lemma GateMeans(c: Config, s: State)
    requires Safe(c, s) && s.producer.AtGate? && !LimitHit(c, s)
    ensures c.maxInflightChunks > 0 ==> s.read < s.next + c.maxInflightChunks
    ensures c.maxInflightBytes > 0 ==> RawBetween(c, FirstHeld(s), s.read) < c.maxInflightBytes
    ensures s.next <= |s.out| <= s.read && FirstHeld(s) <= |s.out|
  {
    hide Partition, WorkersShape, RawBetween, RawBytes, ReadyBytes;
    OutWasRead(s);
  }

  predicate SeesEnd(c: Config, s: State) {
    s.closed || (s.producer.Reading? && s.read == |c.chunks|)
  }

  /** Past the gate for the last time, everything is out. */
  lemma SerialGate(c: Config, s: State)
    requires Serial(c) && Safe(c, s) && s.producer.AtGate? && !LimitHit(c, s) && s.read == |c.chunks|
    ensures |s.out| == |c.chunks|
  {
    hide Safe, LimitHit, RawBetween, Config.Raw;
    GateMeans(c, s);
    if |s.out| < |c.chunks| {
      RawAtLeast(c, FirstHeld(s), s.read);
    }
  }

  /** Nothing is flagged, and the end is seen only when everything is out. */
  ghost predicate Plain(c: Config, s: State) {
    && (SeesEnd(c, s) ==> |s.out| == |c.chunks|)
    && forall k :: 0 <= k < |s.out| ==> !s.out[k].final
  }

  lemma PlainStep(c: Config, s: State, step: Step)
    requires Serial(c) && Safe(c, s) && Plain(c, s) && Enabled(c, s, step)
    ensures Plain(c, Apply(c, s, step))
  {
    hide Held, UpTo, InHand, Partition, Counters, WorkersShape, Taken, Compressed, Fresh, InsertAll, RawBytes, LimitHit;
    hide ItemBytes, PreparedBytes, Config.ReadyByteCap, Config.Raw, Serial;
    if step.PassGate? && s.read == |c.chunks| {
      SerialGate(c, s);
    }
    if step.WriteOut? {
      HandWasRead(c, s);
    }
  }

  lemma HandWasRead(c: Config, s: State)
    requires Safe(c, s) && s.writer.GotTotal?
    ensures |s.out| == s.next < |c.chunks| && s.writer.item.index == s.next
  {
    hide Held, UpTo, Partition, Counters, WorkersShape;
    PlaceOnce(s, s.next);
  }

  /** With such limits no run loses a chunk, and no run ever flags one as final. */
  lemma {:induction false} SerialOnEveryRun(c: Config, run: seq<Step>, s: State)
    requires Serial(c) && Reaches(c, run, s)
    ensures Plain(c, s) && !Lost(c, s)
    decreases |run|
  {
    hide Safe, Enabled, Apply, Serial, Plain, SeesEnd;
    SafeOnEveryRun(c, run, s);
    if run == [] {
      PlainAtStart(c);
    } else {
      var last := run[|run| - 1];
      var before :| Reaches(c, run[..|run| - 1], before) && Enabled(c, before, last) && s == Apply(c, before, last);
      SerialOnEveryRun(c, run[..|run| - 1], before);
      SafeOnEveryRun(c, run[..|run| - 1], before);
      PlainStep(c, before, last);
    }
    PlainLosesNothing(c, s);
  }

  lemma PlainAtStart(c: Config)
    ensures Plain(c, Init(c))
  {
  }

  lemma PlainLosesNothing(c: Config, s: State)
    requires Safe(c, s) && Plain(c, s)
    ensures !Lost(c, s)
  {
    hide Partition, Counters, WorkersShape;
  }

  // ---- Early flags -------------------------------------------------------------------------------

  /** A chunk that is about to be flagged early, or has been, was in flight together with the chunk behind it when the
      producer passed its gate for the last time. */
  ghost predicate EarlyNeedsRoom(c: Config, s: State) {
    && (s.writer.GotTotal? && s.writer.seen < |c.chunks| && s.next + 2 <= |c.chunks| && SeesEnd(c, s) ==> RoomForTwo(c))
    && (FlaggedEarly(c, s) ==> RoomForTwo(c))
  }

  lemma TwoInFlight(c: Config, s: State)
    requires Safe(c, s) && s.producer.AtGate? && !LimitHit(c, s) && s.read == |c.chunks|
    requires s.writer.GotTotal? && s.next + 2 <= |c.chunks|
    ensures RoomForTwo(c)
  {
    hide Safe, LimitHit, RawBetween, Config.Raw;
    GateMeans(c, s);
    HandWasRead(c, s);
    RawAtLeast(c, FirstHeld(s), s.read);
  }

  lemma EarlyStep(c: Config, s: State, step: Step)
    requires Safe(c, s) && EarlyNeedsRoom(c, s) && Enabled(c, s, step)
    ensures EarlyNeedsRoom(c, Apply(c, s, step))
  {
    hide Held, UpTo, InHand, Partition, Counters, WorkersShape, Taken, Compressed, Fresh, InsertAll, RawBytes, LimitHit;
    hide ItemBytes, PreparedBytes, Config.ReadyByteCap, Config.Raw, RoomForTwo;
    if step.PassGate? && s.read == |c.chunks| && s.writer.GotTotal? && s.next + 2 <= |c.chunks| {
      TwoInFlight(c, s);
    }
  }

  lemma {:induction false} EarlyOnEveryRun(c: Config, run: seq<Step>, s: State)
    requires Reaches(c, run, s)
    ensures EarlyNeedsRoom(c, s)
    decreases |run|
  {
    hide Safe, Enabled, Apply, EarlyNeedsRoom, RoomForTwo;
    if run == [] {
      EarlyAtStart(c);
    } else {
      var last := run[|run| - 1];
      var before :| Reaches(c, run[..|run| - 1], before) && Enabled(c, before, last) && s == Apply(c, before, last);
      EarlyOnEveryRun(c, run[..|run| - 1], before);
      SafeOnEveryRun(c, run[..|run| - 1], before);
      EarlyStep(c, before, last);
    }
  }

  lemma EarlyAtStart(c: Config)
    ensures EarlyNeedsRoom(c, Init(c))
  {
  }

  // ---- Runs --------------------------------------------------------------------------------------

  /** Whatever the limits are, some run writes everything and flags nothing: each chunk is written before the producer
      reads on, so the end of the input is found too late. */
  lemma UnflaggedRun(c: Config) returns (run: seq<Step>, s: State)
    requires c.Valid()
    ensures Reaches(c, run, s) && s.writer.Exited? && s.out == Unflagged(|c.chunks|)
  {
    hide Reaches, Config.ReadyByteCap, LimitHit, Config.Raw, Config.Valid;
    run, s := OneByOne(c, |c.chunks|);
    OpenWhenSettled(c, |c.chunks|);
    run, s := FindEof(c, run, s);
    run, s := FindEnd(c, run, s);
  }

  /** The last chunk is in flight, and the producer can look for the end of the input. */
  lemma LastInFlight(c: Config) returns (run: seq<Step>, s: State)
    requires c.Valid() && |c.chunks| > 0 && !Serial(c)
    ensures var n: nat := |c.chunks| - 1;
            && Reaches(c, run, s) && c.ReadyByteCap() > 0 && WorkerAt(s, 0) && 0 < c.cpuWorkers
            && s == Settled(c, n).(read := n + 1, total := n + 1, queue := [n], queuedBytes := c.Raw(n),
                                   inflight := c.Raw(n), producer := Stopped, closed := true)
  {
    hide Reaches, Config.ReadyByteCap, Config.Raw, Config.Valid;
    var n: nat := |c.chunks| - 1;
    run, s := OneByOne(c, n);
    OpenWhenSettled(c, n);
    run, s := Produce(c, run, s);
    run, s := FindEof(c, run, s);
  }

  /** Some run is right: the producer finds the end while the last chunk is being compressed. */
  lemma RightRun(c: Config) returns (run: seq<Step>, s: State)
    requires c.Valid() && |c.chunks| > 0 && !Serial(c)
    ensures Reaches(c, run, s) && Right(c, s)
  {
    hide Reaches, Config.ReadyByteCap, LimitHit, Config.Raw, Config.Valid, Serial;
    run, s := LastInFlight(c);
    run, s := CompressOne(c, run, s, 0);
    run, s := TakeNext(c, run, s);
    run, s := WriteHeld(c, run, s);
    assert s.ready == map[];
    run, s := FindEnd(c, run, s);
  }

  /** Some run loses the last chunk: the writer reads the task count before that chunk is counted, and looks at the
      queue after the producer has closed it. */
  lemma LosingRun(c: Config) returns (run: seq<Step>, s: State)
    requires c.Valid() && |c.chunks| > 0 && !Serial(c)
    ensures Reaches(c, run, s) && Lost(c, s)
  {
    hide Reaches, Config.ReadyByteCap, Config.Raw, Config.Valid;
    var n: nat := |c.chunks| - 1;
    run, s := OneByOne(c, n);
    OpenWhenSettled(c, n);
    run, s := Extend(c, run, s, FindNothing);
    run, s := Extend(c, run, s, CheckTotal);
    run, s := Produce(c, run, s);
    run, s := FindEof(c, run, s);
    run, s := Extend(c, run, s, CheckClosed);
  }

  /** Some run flags the last chunk but one: the writer reads the task count while that chunk is the newest, and looks
      at the queue after the last one has come and the producer has closed it. */
  lemma EarlyRun(c: Config) returns (run: seq<Step>, s: State)
    requires c.Valid() && RoomForTwo(c)
    ensures var n: nat := |c.chunks| - 2;
            && Reaches(c, run, s) && s.writer.Exited? && FlaggedEarly(c, s)
            && s.out == Unflagged(n) + [Written(n, true), Written(n + 1, true)]
  {
    hide Reaches, Config.ReadyByteCap, Config.Raw, Config.Valid;
    var n: nat := |c.chunks| - 2;
    run, s := OneByOne(c, n);
    OpenWhenSettled(c, n);
    run, s := Produce(c, run, s);
    run, s := CompressOne(c, run, s, 0);
    run, s := TakeNext(c, run, s);
    assert s.ready == map[];
    run, s := Produce(c, run, s);
    run, s := FindEof(c, run, s);
    run, s := WriteHeld(c, run, s);
    run, s := LastOne(c, run, s);
    assert s.out[n] == Written(n, true);
  }

  /** The writer ends a run of which one chunk is left in the queue. */
  lemma LastOne(c: Config, run0: seq<Step>, s0: State) returns (run: seq<Step>, s: State)
    requires c.Valid() && Reaches(c, run0, s0) && s0.next < |c.chunks| && s0.queue == [s0.next] && s0.ready == map[]
    requires s0.closed && s0.total == s0.next + 1 && s0.writer.Popping? && s0.readyBytes == 0 < c.ReadyByteCap()
    requires 0 < c.cpuWorkers && WorkerAt(s0, 0) && s0.workers[0].AtReadyGate?
    ensures Reaches(c, run, s) && s.writer.Exited? && s.out == s0.out + [Written(s0.next, true)]
  {
    hide Reaches, Config.ReadyByteCap, LimitHit, Config.Raw, Config.Valid;
    run, s := CompressOne(c, run0, s0, 0);
    run, s := TakeNext(c, run, s);
    assert s.ready == map[];
    run, s := WriteHeld(c, run, s);
    run, s := FindEnd(c, run, s);
  }

  // ---- The exact conditions ----------------------------------------------------------------------

  /** Some run loses a chunk exactly when there is one and the limits are not serial. */
  lemma LossIff(c: Config)
    requires c.Valid()
    ensures (exists run, s :: Reaches(c, run, s) && Lost(c, s)) <==> |c.chunks| > 0 && !Serial(c)
  {
    hide Reaches, Serial, Config.Valid, Lost;
    if |c.chunks| > 0 && !Serial(c) {
      var run, s := LosingRun(c);
    } else {
      forall run, s | Reaches(c, run, s)
        ensures !Lost(c, s)
      {
        if Serial(c) {
          SerialOnEveryRun(c, run, s);
        } else {
          NothingToLose(c, s);
        }
      }
    }
  }

  lemma NothingToLose(c: Config, s: State)
    requires |c.chunks| == 0
    ensures !Lost(c, s)
  {
  }

  /** Some run ends with everything written and exactly the last chunk final, exactly when there is no chunk or the
      limits are not serial. */
  lemma RightIff(c: Config)
    requires c.Valid()
    ensures (exists run, s :: Reaches(c, run, s) && Right(c, s)) <==> |c.chunks| == 0 || !Serial(c)
  {
    hide Reaches, Serial, Config.Valid, Right;
    if |c.chunks| == 0 {
      var run, s := UnflaggedRun(c);
      EmptyIsRight(c, s);
    } else if !Serial(c) {
      var run, s := RightRun(c);
    } else {
      forall run, s | Reaches(c, run, s)
        ensures !Right(c, s)
      {
        SerialOnEveryRun(c, run, s);
        PlainIsWrong(c, s);
      }
    }
  }

  lemma EmptyIsRight(c: Config, s: State)
    requires |c.chunks| == 0 && s.writer.Exited? && s.out == []
    ensures Right(c, s)
  {
  }

  lemma PlainIsWrong(c: Config, s: State)
    requires |c.chunks| > 0 && forall k :: 0 <= k < |s.out| ==> !s.out[k].final
    ensures !Right(c, s)
  {
    if |s.out| == |c.chunks| {
      assert !s.out[|c.chunks| - 1].final;
    }
  }

  /** No limits make every run right: that holds exactly for the empty input. */
  lemma AlwaysRightIff(c: Config)
    requires c.Valid()
    ensures (forall run, s :: Reaches(c, run, s) && s.writer.Exited? ==> Right(c, s)) <==> |c.chunks| == 0
  {
    hide Reaches, Config.Valid, Right;
    if |c.chunks| == 0 {
      forall run, s | Reaches(c, run, s) && s.writer.Exited?
        ensures Right(c, s)
      {
        SafeOnEveryRun(c, run, s);
        SafeOutput(c, s);
        EmptyIsRight(c, s);
      }
    } else {
      var run, s := UnflaggedRun(c);
      PlainIsWrong(c, s);
    }
  }

  /** Some run flags a chunk before the last one exactly when the last two chunks fit the limits together. */
  lemma EarlyIff(c: Config)
    requires c.Valid()
    ensures (exists run, s :: Reaches(c, run, s) && FlaggedEarly(c, s)) <==> RoomForTwo(c)
  {
    hide Reaches, Config.Valid, FlaggedEarly, RoomForTwo;
    if RoomForTwo(c) {
      var run, s := EarlyRun(c);
    } else {
      forall run, s | Reaches(c, run, s)
        ensures !FlaggedEarly(c, s)
      {
        EarlyOnEveryRun(c, run, s);
      }
    }
  }

  // ---- On small inputs ---------------------------------------------------------------------------

  /** One worker, chunks of one octet that compress to three, no limits. */
  function Small(n: nat): (c: Config)
    ensures c.Valid() && !Serial(c) && |c.chunks| == n
  {
    Config(seq(n, i => Chunk(1, 3, 3, 3)), 1, 1, false, 0, 1, 0, 0)
  }

  /** A run on one chunk that ends with nothing written. */
  lemma ChunkLost() returns (run: seq<Step>, s: State)
    ensures Reaches(Small(1), run, s) && s.writer.Exited? && s.out == [] && |Small(1).chunks| == 1
  {
    run, s := LosingRun(Small(1));
  }

  /** A run on one chunk that ends without any final block. */
  lemma FinalMissing() returns (run: seq<Step>, s: State)
    ensures Reaches(Small(1), run, s) && s.writer.Exited? && s.out == [Written(0, false)]
  {
    run, s := UnflaggedRun(Small(1));
  }

  /** A run on two chunks that flags both. */
  lemma FinalEarly() returns (run: seq<Step>, s: State)
    ensures Reaches(Small(2), run, s) && s.writer.Exited? && s.out == [Written(0, true), Written(1, true)]
  {
    run, s := EarlyRun(Small(2));
  }
}
