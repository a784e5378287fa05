/** How runs of the compression pipeline end. */
module PipelineEnd {
  import opened Pipeline
  import opened PipelineSafety
  import opened PipelineRuns
  import opened PipelineProgress

  // ---- Every run with enough room ends ------------------------------------------------------------

  /** A run of steps from one state to another. */
  ghost predicate Path(c: Config, s: State, steps: seq<Step>, s': State)
    decreases |steps|
  {
    if steps == [] then s' == s else Enabled(c, s, steps[0]) && Path(c, Apply(c, s, steps[0]), steps[1..], s')
  }

  /** How many steps of a run are not idle polls. */
  ghost function Productive(c: Config, s: State, steps: seq<Step>): nat
    decreases |steps|
  {
    if steps == [] || !Enabled(c, s, steps[0]) then 0
    else Productive(c, Apply(c, s, steps[0]), steps[1..]) + if IdlePoll(s, steps[0]) then 0 else 1
  }

  /** On every run, of any configuration, the steps that are not idle polls are bounded by the rank at its start. */
  lemma {:induction false} ProductiveBounded(c: Config, s: State, steps: seq<Step>, s': State)
    requires Safe(c, s) && Path(c, s, steps, s')
    ensures Safe(c, s') && Productive(c, s, steps) + Rank(c, s') <= Rank(c, s)
    decreases |steps|
  {
    hide Safe, Enabled, Apply, Rank, IdlePoll;
    if steps != [] {
      StepRank(c, s, steps[0]);
      SafeStep(c, s, steps[0]);
      ProductiveBounded(c, Apply(c, s, steps[0]), steps[1..], s');
    }
  }

  /** A run that was lost: the writer left early, or it may leave because the task count it read is out of date. */
  ghost predicate Astray(c: Config, s: State) {
    || (s.writer.Exited? && |s.out| < |c.chunks|)
    || (s.writer.CheckingClosed? && s.writer.seen == s.next && !Finished(s))
  }

  lemma StaysOnCourse(c: Config, s: State, step: Step)
    requires Safe(c, s) && Enabled(c, s, step) && !IdlePoll(s, step) && !Astray(c, s)
    ensures !Astray(c, Apply(c, s, step))
  {
    hide Held, UpTo, InHand, Partition, Counters, WorkersShape, Taken, Compressed, Fresh, InsertAll, RawBytes, LimitHit;
    hide ItemBytes, PreparedBytes, Config.ReadyByteCap;
    if s.next in s.ready {
      PlaceOnce(s, s.next);
    }
  }

  /** From every reachable state the pipeline can run to its end, and it does so in at most `Rank` steps when
      the scheduler prefers any other step to an idle poll. Unless the run was lost before, everything is written. */
  lemma {:induction false} ReachesEnd(c: Config, s: State, m: nat) returns (steps: seq<Step>, s': State)
    requires Ends(c, m) && Safe(c, s) && Going(c, s)
    ensures Path(c, s, steps, s') && s'.writer.Exited? && Productive(c, s, steps) == |steps| <= Rank(c, s)
    ensures !Astray(c, s) ==> |s'.out| == |c.chunks|
    decreases Rank(c, s)
  {
    hide Safe, Enabled, Apply, Rank, IdlePoll, Going, Ends;
    EndsIsValid(c, m);
    if s.writer.Exited? {
      steps, s' := [], s;
      SafeOutput(c, s);
    } else {
      var step := NeverStuck(c, s, m);
      StepRank(c, s, step);
      SafeStep(c, s, step);
      GoingStep(c, s, step);
      if !Astray(c, s) {
        StaysOnCourse(c, s, step);
      }
      var rest, end := ReachesEnd(c, Apply(c, s, step), m);
      steps, s' := [step] + rest, end;
      assert steps[1..] == rest;
    }
  }

  lemma SafeOutput(c: Config, s: State)
    requires Safe(c, s)
    ensures |s.out| <= |c.chunks|
  {
    hide Safe;
    WrittenInOrder(c, s);
  }

  /** What a path reaches from a reachable state is reachable. */
  lemma {:induction false} PathReaches(c: Config, run: seq<Step>, s: State, steps: seq<Step>, s': State)
    requires Reaches(c, run, s) && Path(c, s, steps, s')
    ensures Reaches(c, run + steps, s')
    decreases |steps|
  {
    hide Reaches, Enabled, Apply;
    if steps != [] {
      var run1, s1 := Extend(c, run, s, steps[0]);
      PathReaches(c, run1, s1, steps[1..], s');
      assert run1 + steps[1..] == run + steps;
    } else {
      assert run + steps == run;
    }
  }

  /** The whole run: some run from the start writes every chunk and lets the writer leave. */
  lemma RunsToEnd(c: Config, m: nat) returns (run: seq<Step>, s: State)
    requires Ends(c, m)
    ensures Reaches(c, run, s) && s.writer.Exited? && |s.out| == |c.chunks|
  {
    hide Safe, Enabled, Apply, Rank, IdlePoll, Going, Ends;
    SafeInit(c);
    GoingInit(c);
    Start(c);
    var steps, end := ReachesEnd(c, Init(c), m);
    PathReaches(c, [], Init(c), steps, end);
    run, s := [] + steps, end;
  }

  lemma Start(c: Config)
    ensures Reaches(c, [], Init(c))
  {
  }

  lemma Extend(c: Config, run: seq<Step>, s: State, step: Step) returns (run': seq<Step>, s': State)
    requires Reaches(c, run, s) && Enabled(c, s, step)
    ensures Reaches(c, run', s') && s' == Apply(c, s, step) && run' == run + [step]
  {
    hide Enabled, Apply;
    run', s' := run + [step], Apply(c, s, step);
    assert run'[..|run'| - 1] == run && run'[|run'| - 1] == step;
    assert Reaches(c, run'[..|run'| - 1], s);
  }

  // ---- When the writer leaves --------------------------------------------------------------------

  lemma SomeMember(q: seq<nat>)
    ensures q != [] ==> q[0] in multiset(q)
  {
  }

  /** With everything written, no chunk is anywhere else. */
  lemma NothingElsewhere(c: Config, s: State)
    requires Safe(c, s) && |s.out| == |c.chunks| && InHand(s.writer) == multiset{}
    ensures s.queue == [] && s.ready == map[] && Held(s.workers) == multiset{} && s.readyBytes == 0
  {
    hide Held, UpTo, InHand, Partition, WorkersShape, WriterShape;
    forall i: nat
      ensures i !in multiset(s.queue) && i !in s.ready && i !in Held(s.workers)
    {
      PlaceOnce(s, i);
      UpToOnce(|s.out|, i);
    }
    SomeMember(s.queue);
    assert s.ready.Keys == {};
  }

  lemma BusyHolds(pc: WorkerPc)
    ensures pc.Busy? && pc.tasks != [] ==> HeldBy(pc) != multiset{}
    ensures pc.Publishing? && pc.items != [] ==> HeldBy(pc) != multiset{}
  {
    if pc.Busy? {
      SomeMember(pc.tasks);
    }
    if pc.Publishing? {
      SomeMember(Indexes(pc.items));
    }
  }

  lemma NobodyHolds(c: Config, s: State, w: nat)
    requires Safe(c, s) && WorkerAt(s, w) && Held(s.workers) == multiset{}
    ensures !s.workers[w].Busy? && !s.workers[w].Publishing?
  {
    hide Held, Partition, Counters, WriterShape, ProducerShape, ItemOk;
    HeldContains(s.workers, w);
    assert WorkerShape(c, s, w);
    BusyHolds(s.workers[w]);
  }

  /** Once the writer has left with everything written, the gate of the workers is open and every worker that is not
      done has a step: joining the workers succeeds. */
  lemma WorkersLeave(c: Config, s: State, w: nat) returns (step: Step)
    requires c.Valid() && Safe(c, s) && s.writer.Exited? && |s.out| == |c.chunks| && WorkerAt(s, w)
    requires !s.workers[w].Done?
    ensures Enabled(c, s, step) && step == if s.workers[w].Taking? then Leave(w) else PassReadyGate(w)
  {
    hide Held, UpTo, Partition, Counters, WorkersShape, ProducerShape;
    NothingElsewhere(c, s);
    NobodyHolds(c, s, w);
    step := if s.workers[w].Taking? then Leave(w) else PassReadyGate(w);
  }
}
