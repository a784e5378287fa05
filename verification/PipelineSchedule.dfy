/** Runs of the compression pipeline built step by step: what one CPU worker and the writer can do with a chunk. */
module PipelineSchedule {
  import opened Pipeline
  import opened PipelineEnd

  /** The producer hands out one more chunk. */
  lemma Produce(c: Config, run: seq<Step>, s: State) returns (run': seq<Step>, s': State)
    requires Reaches(c, run, s) && s.producer.AtGate? && !s.closed && !LimitHit(c, s) && s.read < |c.chunks|
    ensures Reaches(c, run', s')
    ensures s' == s.(read := s.read + 1, total := s.read + 1, queue := s.queue + [s.read],
                     queuedBytes := s.queuedBytes + c.Raw(s.read), inflight := s.inflight + c.Raw(s.read))
  {
    hide Reaches, LimitHit, Config.Raw;
    run', s' := Extend(c, run, s, PassGate);
    run', s' := Extend(c, run', s', ReadChunk);
    run', s' := Extend(c, run', s', CountTask);
    run', s' := Extend(c, run', s', PushTask);
  }

  /** The producer finds the end of the input. */
  lemma FindEof(c: Config, run: seq<Step>, s: State) returns (run': seq<Step>, s': State)
    requires Reaches(c, run, s) && s.producer.AtGate? && !s.closed && !LimitHit(c, s) && s.read == |c.chunks|
    ensures Reaches(c, run', s') && s' == s.(producer := Stopped, closed := true)
  {
    hide Reaches, LimitHit;
    run', s' := Extend(c, run, s, PassGate);
    run', s' := Extend(c, run', s', ReadEof);
  }

  /** A CPU worker compresses the chunk at the head of the queue. */
  lemma CompressOne(c: Config, run: seq<Step>, s: State, w: nat) returns (run': seq<Step>, s': State)
    requires Reaches(c, run, s) && w < c.cpuWorkers && WorkerAt(s, w) && s.workers[w].AtReadyGate?
    requires s.queue != [] && s.queue[0] < |c.chunks| && s.queue[0] !in s.ready && s.readyBytes < c.ReadyByteCap()
    ensures Reaches(c, run', s')
    ensures var i := s.queue[0];
            var item := CpuItemOf(c, i);
            s' == s.(queue := s.queue[1..], queuedBytes := SatSub(s.queuedBytes, c.Raw(i)),
                     ready := s.ready[i := item], readyBytes := s.readyBytes + item.prepared)
  {
    hide Reaches, Config.ReadyByteCap, RawBytes, SatSub, Config.Raw;
    var i := s.queue[0];
    var items := [CpuItemOf(c, i)];
    assert Indexes(items) == [i];
    OneTask(c, i);
    run', s' := Extend(c, run, s, PassReadyGate(w));
    run', s' := Extend(c, run', s', TakeTasks(w));
    run', s' := Extend(c, run', s', Compress(w, items));
    run', s' := Extend(c, run', s', Publish(w));
    assert s'.workers == s.workers;
    assert PreparedBytes(items[..0]) == 0 && InsertAll(s.ready, items[..0]) == s.ready;
  }

  lemma OneTask(c: Config, i: nat)
    ensures RawBytes(c, [i]) == c.Raw(i)
  {
    assert RawBytes(c, [i][1..]) == 0;
  }

  /** The writer takes the next chunk and reads the task count. */
  lemma TakeNext(c: Config, run: seq<Step>, s: State) returns (run': seq<Step>, s': State)
    requires Reaches(c, run, s) && s.writer.Popping? && s.next in s.ready
    ensures Reaches(c, run', s')
    ensures s' == s.(writer := GotTotal(s.ready[s.next], s.total), ready := s.ready - {s.next},
                     readyBytes := SatSub(s.readyBytes, s.ready[s.next].prepared))
  {
    hide Reaches;
    run', s' := Extend(c, run, s, PopReady);
    run', s' := Extend(c, run', s', ReadTotal);
  }

  /** The writer writes the chunk it holds. */
  lemma WriteHeld(c: Config, run: seq<Step>, s: State) returns (run': seq<Step>, s': State)
    requires Reaches(c, run, s) && s.writer.GotTotal?
    ensures Reaches(c, run', s')
    ensures var i := s.writer.item.index;
            s' == s.(writer := Popping, next := s.next + 1, inflight := s.inflight - c.Raw(i),
                     out := s.out + [Written(i, s.closed && s.next + 1 == s.writer.seen)])
  {
    hide Reaches, Config.Raw;
    run', s' := Extend(c, run, s, WriteOut);
    run', s' := Extend(c, run', s', ReleaseBytes);
    run', s' := Extend(c, run', s', StoreWritten);
  }

  /** The writer finds the end. */
  lemma FindEnd(c: Config, run: seq<Step>, s: State) returns (run': seq<Step>, s': State)
    requires Reaches(c, run, s) && s.writer.Popping? && s.ready == map[] && s.closed && s.next == s.total
    ensures Reaches(c, run', s') && s' == s.(writer := Exited)
  {
    hide Reaches;
    run', s' := Extend(c, run, s, FindNothing);
    run', s' := Extend(c, run', s', CheckTotal);
    run', s' := Extend(c, run', s', CheckClosed);
  }

  /** All workers before their gate. */
  function Idle(c: Config): (r: seq<WorkerPc>)
    ensures |r| == c.WorkerCount() && forall w :: 0 <= w < |r| ==> r[w] == AtReadyGate
  {
    seq(c.WorkerCount(), i => AtReadyGate)
  }

  function Unflagged(n: nat): (r: seq<Written>)
    ensures |r| == n && forall k :: 0 <= k < n ==> r[k] == Written(k, false)
  {
    seq(n, (i: nat) => Written(i, false))
  }

  /** The first `i` chunks are written without a flag and nothing else has been read. */
  function Settled(c: Config, i: nat): State {
    State(AtGate, i, i, [], 0, false, Idle(c), map[], 0, false, Popping, i, Unflagged(i), 0)
  }

  /** The gates stand open when nothing is in flight. */
  lemma OpenWhenSettled(c: Config, i: nat)
    requires c.Valid()
    ensures !LimitHit(c, Settled(c, i)) && c.ReadyByteCap() > 0 && WorkerAt(Settled(c, i), 0) && 0 < c.cpuWorkers
  {
    var cap := c.ReadyByteCap();
    if c.maxInflightBytes == 0 && c.maxInflightChunks == 0 {
      assert Max(c.chunkSize, 1) * Max(c.cpuWorkers, 1) >= 1;
    }
  }

  /** Whatever the limits are, the chunks can be read, compressed and written one after the other. */
  lemma {:induction false} OneByOne(c: Config, i: nat) returns (run: seq<Step>, s: State)
    requires c.Valid() && i <= |c.chunks|
    ensures Reaches(c, run, s) && s == Settled(c, i)
  {
    hide Reaches, Config.ReadyByteCap, LimitHit, Config.Raw, Settled, Config.Valid;
    if i == 0 {
      Start(c);
      run, s := [], Init(c);
      SettledAtStart(c);
    } else {
      run, s := OneByOne(c, i - 1);
      run, s := OneMore(c, i - 1, run);
    }
  }

  lemma SettledAtStart(c: Config)
    ensures Settled(c, 0) == Init(c)
  {
    assert Settled(c, 0).workers == Init(c).workers;
  }

  /** One chunk more. */
  lemma OneMore(c: Config, i: nat, run0: seq<Step>) returns (run: seq<Step>, s: State)
    requires c.Valid() && i < |c.chunks| && Reaches(c, run0, Settled(c, i))
    ensures Reaches(c, run, s) && s == Settled(c, i + 1)
  {
    hide Reaches, Config.ReadyByteCap, LimitHit, Config.Raw, Config.Valid;
    s := Settled(c, i);
    OpenWhenSettled(c, i);
    run, s := Produce(c, run0, s);
    run, s := CompressOne(c, run, s, 0);
    run, s := TakeNext(c, run, s);
    run, s := WriteHeld(c, run, s);
    assert s.out == Unflagged(i + 1) && s.ready == map[] && s.queue == [];
  }
}
