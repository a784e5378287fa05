/** The dispatch queue of the archive parser as a step system: the parser enqueues file fragments, dispatch threads
    submit them to the files' writers, and the end waits until every fragment has been submitted. */
module Dispatch {
  import opened Octets

  const BACKLOG_BYTES: nat := 0x8000_0000

  /** A fragment; `id` counts the fragments in the order in which the parser enqueues them. */
  datatype Fragment = Fragment(id: nat, file: nat, offset: nat, data: seq<Octet>)

  /** What the parser does before its end: opening the next file, or writing to an open one. */
  datatype Action = Open | Put(file: nat, offset: nat, data: seq<Octet>)

  datatype WorkerPc = Idle | Held(fragment: Fragment) | Submitted(fragment: Fragment) | Gone

  /** The parser runs its actions, waits at the barrier, drains the writers one by one, and stops the threads. */
  datatype ParserPc = Running(next: nat) | Barrier | Draining(file: nat) | Stopping

  /** `files[f]` is the count of fragments of file `f` that are queued or in hand. */
  datatype State = State(
    parser: ParserPc,
    files: seq<nat>,
    enqueued: nat,
    queue: seq<Fragment>,
    queuedBytes: nat,
    closed: bool,
    stopped: bool,
    workers: seq<WorkerPc>,
    submitted: seq<Fragment>)

  datatype Job = Job(actions: seq<Action>, threads: nat) {
    /** The parser writes only to files that it has opened. */
    predicate Valid() {
      threads >= 1 && forall k :: 0 <= k < |actions| && actions[k].Put? ==> actions[k].file < Opened(actions[..k])
    }
  }

  function Opened(actions: seq<Action>): nat {
    if actions == [] then 0 else Opened(actions[..|actions| - 1]) + if actions[|actions| - 1].Open? then 1 else 0
  }

  /** The fragments that some actions enqueue, in order. */
  function Fragments(actions: seq<Action>): seq<Fragment> {
    if actions == [] then []
    else
      var before := Fragments(actions[..|actions| - 1]);
      match actions[|actions| - 1]
      case Open => before
      case Put(file, offset, data) => before + [Fragment(|before|, file, offset, data)]
  }

  function Init(j: Job): State {
    State(Running(0), [], 0, [], 0, false, false, seq(j.threads, i => Idle), [])
  }

  datatype Step =
    | OpenFile
    | Enqueue
    | CloseQueue
    | PassBarrier
    | DrainWriter
    | StopThreads
    | Pop(w: nat)
    | Submit(w: nat)
    | CountDown(w: nat)
    | Leave(w: nat)

  function SatSub(a: nat, b: nat): nat {
    if a >= b then a - b else 0
  }

  predicate AllQuiet(s: State) {
    s.queue == [] && forall f :: 0 <= f < |s.files| ==> s.files[f] == 0
  }

  predicate Enabled(j: Job, s: State, step: Step) {
    match step
    case OpenFile => s.parser.Running? && s.parser.next < |j.actions| && j.actions[s.parser.next].Open?
    case Enqueue =>
      && s.parser.Running? && s.parser.next < |j.actions| && j.actions[s.parser.next].Put?
      && s.queuedBytes < BACKLOG_BYTES && !s.stopped
    case CloseQueue => s.parser.Running? && s.parser.next == |j.actions|
    case PassBarrier => s.parser.Barrier? && (AllQuiet(s) || s.stopped)
    case DrainWriter => s.parser.Draining? && s.parser.file < |s.files|
    case StopThreads => s.parser.Draining? && s.parser.file == |s.files|
    case Pop(w) => w < |s.workers| && s.workers[w].Idle? && s.queue != []
    case Submit(w) => w < |s.workers| && s.workers[w].Held?
    case CountDown(w) => w < |s.workers| && s.workers[w].Submitted?
    case Leave(w) => w < |s.workers| && s.workers[w].Idle? && s.queue == [] && (s.closed || s.stopped)
  }

  function Apply(j: Job, s: State, step: Step): State
    requires Enabled(j, s, step)
  {
    match step
    case OpenFile => s.(parser := Running(s.parser.next + 1), files := s.files + [0])
    case Enqueue =>
      var a := j.actions[s.parser.next];
      if a.file >= |s.files| then s
      else
        s.(parser := Running(s.parser.next + 1), files := s.files[a.file := s.files[a.file] + 1],
           enqueued := s.enqueued + 1, queue := s.queue + [Fragment(s.enqueued, a.file, a.offset, a.data)],
           queuedBytes := s.queuedBytes + |a.data|)
    case CloseQueue => s.(parser := Barrier, closed := true)
    case PassBarrier => s.(parser := Draining(0))
    case DrainWriter => s.(parser := Draining(s.parser.file + 1))
    case StopThreads => s.(parser := Stopping, stopped := true)
    case Pop(w) =>
      s.(workers := s.workers[w := Held(s.queue[0])], queue := s.queue[1..],
         queuedBytes := SatSub(s.queuedBytes, |s.queue[0].data|))
    case Submit(w) =>
      var fragment := s.workers[w].fragment;
      s.(workers := s.workers[w := Submitted(fragment)], submitted := s.submitted + [fragment])
    case CountDown(w) =>
      var f := s.workers[w].fragment.file;
      if f < |s.files| then s.(workers := s.workers[w := Idle], files := s.files[f := SatSub(s.files[f], 1)])
      else s.(workers := s.workers[w := Idle])
    case Leave(w) => s.(workers := s.workers[w := Gone])
  }

  ghost predicate Path(j: Job, s: State, steps: seq<Step>, s': State)
    decreases |steps|
  {
    if steps == [] then s' == s else Enabled(j, s, steps[0]) && Path(j, Apply(j, s, steps[0]), steps[1..], s')
  }

  // ---- What every step keeps ---------------------------------------------------------------------

  function QueuedOf(queue: seq<Fragment>, f: nat): nat {
    if queue == [] then 0 else (if queue[0].file == f then 1 else 0) + QueuedOf(queue[1..], f)
  }

  function InHand(pc: WorkerPc, f: nat): nat {
    if (pc.Held? || pc.Submitted?) && pc.fragment.file == f then 1 else 0
  }

  function InHands(workers: seq<WorkerPc>, f: nat): nat {
    if workers == [] then 0 else InHands(workers[..|workers| - 1], f) + InHand(workers[|workers| - 1], f)
  }

  function Bytes(queue: seq<Fragment>): nat {
    if queue == [] then 0 else |queue[0].data| + Bytes(queue[1..])
  }

  /** How far the parser is in its actions. */
  function Progress(j: Job, s: State): nat {
    if s.parser.Running? && s.parser.next <= |j.actions| then s.parser.next else |j.actions|
  }

  ghost predicate ParserOk(j: Job, s: State) {
    && (s.parser.Running? ==> s.parser.next <= |j.actions|)
    && (s.parser.Draining? ==> s.parser.file <= |s.files|)
    && s.closed == !s.parser.Running? && s.stopped == s.parser.Stopping?
    && |s.files| == Opened(j.actions[..Progress(j, s)])
    && s.enqueued == |Fragments(j.actions[..Progress(j, s)])|
  }

  /** The queue holds the last fragments enqueued, in order. */
  ghost predicate QueueOk(j: Job, s: State) {
    && |s.queue| <= s.enqueued == |Fragments(j.actions[..Progress(j, s)])|
    && (forall k :: 0 <= k < |s.queue| ==>
          s.queue[k] == Fragments(j.actions[..Progress(j, s)])[s.enqueued - |s.queue| + k]
              && s.queue[k].file < |s.files|)
    && s.queuedBytes == Bytes(s.queue)
  }

  /** Every fragment's count is what is queued and in hand. */
  ghost predicate CountsOk(s: State) {
    forall f :: 0 <= f < |s.files| ==> s.files[f] == QueuedOf(s.queue, f) + InHands(s.workers, f)
  }

  ghost predicate HandsOk(j: Job, s: State) {
    && |s.workers| == j.threads
    && (forall w :: 0 <= w < |s.workers| && s.workers[w].Gone? ==> s.closed && s.queue == [])
    && forall w :: 0 <= w < |s.workers| && (s.workers[w].Held? || s.workers[w].Submitted?) ==>
                     s.workers[w].fragment.file < |s.files|
  }

  /** Where the fragments are that are not in the queue: submitted, or with a thread that has not submitted them. */
  ghost predicate Accounted(j: Job, s: State) {
    multiset(s.submitted) + HeldAll(s.workers) == multiset(Popped(j, s))
  }

  /** The fragments that have left the queue. */
  function Popped(j: Job, s: State): seq<Fragment> {
    var all := Fragments(j.actions[..Progress(j, s)]);
    if |s.queue| <= |all| then all[..|all| - |s.queue|] else []
  }

  function HeldOne(pc: WorkerPc): multiset<Fragment> {
    if pc.Held? then multiset{pc.fragment} else multiset{}
  }

  function HeldAll(workers: seq<WorkerPc>): multiset<Fragment> {
    if workers == [] then multiset{} else HeldAll(workers[..|workers| - 1]) + HeldOne(workers[|workers| - 1])
  }

  /** Behind the barrier nothing is queued and no thread holds a fragment. */
  ghost predicate BarrierOk(s: State) {
    s.parser.Draining? || s.parser.Stopping? ==>
      s.queue == [] && forall w :: 0 <= w < |s.workers| ==> s.workers[w].Idle? || s.workers[w].Gone?
  }

  ghost predicate Inv(j: Job, s: State) {
    ParserOk(j, s) && QueueOk(j, s) && CountsOk(s) && HandsOk(j, s) && Accounted(j, s) && BarrierOk(s)
  }

  lemma InitInv(j: Job)
    ensures Inv(j, Init(j))
  {
    assert j.actions[..0] == [];
    NobodyHolds(Init(j).workers);
  }

  lemma {:induction false} NobodyHolds(workers: seq<WorkerPc>)
    requires forall w :: 0 <= w < |workers| ==> !workers[w].Held?
    ensures HeldAll(workers) == multiset{}
  {
    if workers != [] {
      NobodyHolds(workers[..|workers| - 1]);
    }
  }

  lemma {:induction false} InHandsUpdate(workers: seq<WorkerPc>, w: nat, pc: WorkerPc, f: nat)
    requires w < |workers|
    ensures InHands(workers[w := pc], f) + InHand(workers[w], f) == InHands(workers, f) + InHand(pc, f)
    decreases |workers|
  {
    hide InHand;
    var n := |workers| - 1;
    if w < n {
      InHandsUpdate(workers[..n], w, pc, f);
      assert workers[w := pc][..n] == workers[..n][w := pc];
    } else {
      assert workers[w := pc][..n] == workers[..n];
    }
  }

  lemma {:induction false} InHandsAtLeast(workers: seq<WorkerPc>, w: nat, f: nat)
    requires w < |workers|
    ensures InHands(workers, f) >= InHand(workers[w], f)
    decreases |workers|
  {
    if w < |workers| - 1 {
      InHandsAtLeast(workers[..|workers| - 1], w, f);
    }
  }

  lemma Shift(a: multiset<Fragment>, b: multiset<Fragment>, x: multiset<Fragment>, y: multiset<Fragment>,
      d: multiset<Fragment>)
    requires a + x == b + y
    ensures a + d + x == b + d + y
  {
    assert a + d + x == (a + x) + d && b + d + y == (b + y) + d;
  }

  lemma {:induction false} HeldAllUpdate(workers: seq<WorkerPc>, w: nat, pc: WorkerPc)
    requires w < |workers|
    ensures HeldAll(workers[w := pc]) + HeldOne(workers[w]) == HeldAll(workers) + HeldOne(pc)
    decreases |workers|
  {
    hide HeldOne;
    var n := |workers| - 1;
    if w < n {
      HeldAllUpdate(workers[..n], w, pc);
      assert workers[w := pc][..n] == workers[..n][w := pc];
      Shift(HeldAll(workers[..n][w := pc]), HeldAll(workers[..n]), HeldOne(workers[w]), HeldOne(pc),
          HeldOne(workers[n]));
    } else {
      assert workers[w := pc][..n] == workers[..n];
    }
  }

  lemma {:induction false} QueuedOfAppend(queue: seq<Fragment>, x: Fragment, f: nat)
    ensures QueuedOf(queue + [x], f) == QueuedOf(queue, f) + if x.file == f then 1 else 0
    ensures Bytes(queue + [x]) == Bytes(queue) + |x.data|
    decreases |queue|
  {
    if queue != [] {
      assert (queue + [x])[1..] == queue[1..] + [x];
      QueuedOfAppend(queue[1..], x, f);
    } else {
      assert [x][1..] == [];
      assert queue + [x] == [x];
    }
  }

  /** One action more. */
  lemma ActionDone(actions: seq<Action>, k: nat)
    requires k < |actions|
    ensures Opened(actions[..k + 1]) == Opened(actions[..k]) + if actions[k].Open? then 1 else 0
    ensures var before := Fragments(actions[..k]);
            Fragments(actions[..k + 1]) == if actions[k].Open? then before
              else before + [Fragment(|before|, actions[k].file, actions[k].offset, actions[k].data)]
  {
    assert actions[..k + 1][..k] == actions[..k];
  }

  lemma ParserStep(j: Job, s: State, step: Step)
    requires j.Valid() && Inv(j, s) && Enabled(j, s, step)
    ensures ParserOk(j, Apply(j, s, step))
    ensures step.Enqueue? ==> j.actions[s.parser.next].file < |s.files|
  {
    hide Opened, Fragments, QueuedOf, InHands, Bytes, QueueOk, CountsOk, HandsOk, Accounted, BarrierOk;
    if step.OpenFile? || step.Enqueue? {
      ActionDone(j.actions, s.parser.next);
    }
    if step.CloseQueue? {
      assert j.actions[..|j.actions|] == j.actions;
    }
  }

  lemma QueueStep(j: Job, s: State, step: Step)
    requires j.Valid() && Inv(j, s) && Enabled(j, s, step)
    ensures QueueOk(j, Apply(j, s, step))
  {
    hide Opened, Fragments, QueuedOf, InHands, CountsOk, HandsOk, Accounted, BarrierOk;
    ParserStep(j, s, step);
    if step.OpenFile? || step.Enqueue? {
      ActionDone(j.actions, s.parser.next);
    }
    if step.Enqueue? {
      var a := j.actions[s.parser.next];
      QueuedOfAppend(s.queue, Fragment(s.enqueued, a.file, a.offset, a.data), 0);
    }
    if step.CloseQueue? {
      assert j.actions[..|j.actions|] == j.actions;
    }
  }

  lemma CountsStep(j: Job, s: State, step: Step)
    requires j.Valid() && Inv(j, s) && Enabled(j, s, step)
    ensures CountsOk(Apply(j, s, step))
    ensures step.CountDown? ==>
              s.workers[step.w].fragment.file < |s.files| && s.files[s.workers[step.w].fragment.file] >= 1
  {
    hide Opened, Fragments, InHands, Bytes, Accounted, BarrierOk, ParserOk;
    ParserStep(j, s, step);
    var s' := Apply(j, s, step);
    forall f | 0 <= f < |s'.files|
      ensures s'.files[f] == QueuedOf(s'.queue, f) + InHands(s'.workers, f)
    {
      if step.Enqueue? {
        var a := j.actions[s.parser.next];
        QueuedOfAppend(s.queue, Fragment(s.enqueued, a.file, a.offset, a.data), f);
      } else if step.OpenFile? {
        NewFileUnused(j, s, |s.files|);
      } else if IsWorkerStep(step) {
        InHandsUpdate(s.workers, step.w, s'.workers[step.w], f);
        InHandsAtLeast(s.workers, step.w, f);
      }
    }
    if step.CountDown? {
      InHandsAtLeast(s.workers, step.w, s.workers[step.w].fragment.file);
    }
  }

  predicate IsWorkerStep(step: Step) {
    step.Pop? || step.Submit? || step.CountDown? || step.Leave?
  }

  lemma NewFileUnused(j: Job, s: State, f: nat)
    requires QueueOk(j, s) && HandsOk(j, s) && f >= |s.files|
    ensures QueuedOf(s.queue, f) == 0 && InHands(s.workers, f) == 0
  {
    hide Fragments, Opened, Bytes;
    NotQueued(s.queue, f);
    NotInHands(s.workers, f);
  }

  lemma {:induction false} NotQueued(queue: seq<Fragment>, f: nat)
    requires forall k :: 0 <= k < |queue| ==> queue[k].file != f
    ensures QueuedOf(queue, f) == 0
    decreases |queue|
  {
    if queue != [] {
      NotQueued(queue[1..], f);
    }
  }

  lemma {:induction false} NotInHands(workers: seq<WorkerPc>, f: nat)
    requires forall w :: 0 <= w < |workers| ==> InHand(workers[w], f) == 0
    ensures InHands(workers, f) == 0
  {
    hide InHand;
    if workers != [] {
      NotInHands(workers[..|workers| - 1], f);
    }
  }

  lemma HandsStep(j: Job, s: State, step: Step)
    requires j.Valid() && Inv(j, s) && Enabled(j, s, step)
    ensures HandsOk(j, Apply(j, s, step))
  {
    hide Opened, Fragments, QueuedOf, InHands, Bytes, CountsOk, Accounted, BarrierOk;
    ParserStep(j, s, step);
  }

  lemma PoppedStep(j: Job, s: State, step: Step)
    requires j.Valid() && Inv(j, s) && Enabled(j, s, step)
    ensures Popped(j, Apply(j, s, step)) == Popped(j, s) + if step.Pop? then [s.queue[0]] else []
  {
    hide Opened, Fragments, QueuedOf, InHands, Bytes, CountsOk, HandsOk, BarrierOk, HeldAll, Accounted;
    ParserStep(j, s, step);
    var all := Fragments(j.actions[..Progress(j, s)]);
    if step.OpenFile? || step.Enqueue? {
      ActionDone(j.actions, s.parser.next);
    } else if step.CloseQueue? {
      assert j.actions[..|j.actions|] == j.actions;
    } else if step.Pop? {
      NextPopped(all, |all| - |s.queue|, s.queue[0]);
    }
  }

  lemma AccountedParser(j: Job, s: State, step: Step)
    requires j.Valid() && Inv(j, s) && Enabled(j, s, step) && !IsWorkerStep(step)
    ensures Accounted(j, Apply(j, s, step))
  {
    hide Popped, Progress, QueuedOf, InHands, Bytes, CountsOk, HandsOk, BarrierOk, HeldAll, QueueOk, ParserOk;
    PoppedStep(j, s, step);
  }

  lemma AccountedWorker(j: Job, s: State, step: Step)
    requires j.Valid() && Inv(j, s) && Enabled(j, s, step) && IsWorkerStep(step)
    ensures Accounted(j, Apply(j, s, step))
  {
    hide Popped, Progress, QueuedOf, InHands, Bytes, CountsOk, HandsOk, BarrierOk, HeldAll, QueueOk, ParserOk;
    var s' := Apply(j, s, step);
    PoppedStep(j, s, step);
    HeldAllUpdate(s.workers, step.w, s'.workers[step.w]);
    assert s.workers[step.w := s'.workers[step.w]] == s'.workers;
    MovesHands(s, s', step, Popped(j, s));
  }

  lemma NextPopped(all: seq<Fragment>, k: int, x: Fragment)
    requires 0 <= k < |all| && all[k] == x
    ensures all[..k + 1] == all[..k] + [x]
  {
  }

  lemma AccountedStep(j: Job, s: State, step: Step)
    requires j.Valid() && Inv(j, s) && Enabled(j, s, step)
    ensures Accounted(j, Apply(j, s, step))
  {
    hide Inv, Apply, Enabled, Accounted;
    if IsWorkerStep(step) {
      AccountedWorker(j, s, step);
    } else {
      AccountedParser(j, s, step);
    }
  }

  lemma MovesHands(s: State, s': State, step: Step, before: seq<Fragment>)
    requires IsWorkerStep(step) && step.w < |s.workers| && |s'.workers| == |s.workers|
    requires HeldAll(s'.workers) + HeldOne(s.workers[step.w]) == HeldAll(s.workers) + HeldOne(s'.workers[step.w])
    requires multiset(s.submitted) + HeldAll(s.workers) == multiset(before)
    requires !s.workers[step.w].Held? || step.Submit?
    requires step.Pop? ==> s.queue != [] && s'.workers[step.w] == Held(s.queue[0]) && s'.submitted == s.submitted
    requires step.Submit? ==> s.workers[step.w].Held? && s'.workers[step.w].Submitted? &&
                              s'.submitted == s.submitted + [s.workers[step.w].fragment]
    requires step.CountDown? || step.Leave? ==> !s'.workers[step.w].Held? && s'.submitted == s.submitted
    ensures multiset(s'.submitted) + HeldAll(s'.workers)
            == if step.Pop? then multiset(before + [s.queue[0]]) else multiset(before)
  {
    hide HeldAll;
    var h, h' := HeldAll(s.workers), HeldAll(s'.workers);
    if step.Submit? {
      var x := multiset{s.workers[step.w].fragment};
      Arrives(s.submitted, s.workers[step.w].fragment);
      HandsOver(multiset(s.submitted), h, h', x);
    } else if step.Pop? {
      var x := multiset{s.queue[0]};
      Arrives(before, s.queue[0]);
      TakesUp(multiset(s.submitted), h, h', x);
    } else {
      Unchanged(HeldAll(s'.workers), HeldAll(s.workers));
    }
  }

  lemma Arrives(items: seq<Fragment>, x: Fragment)
    ensures multiset(items + [x]) == multiset(items) + multiset{x}
  {
  }

  lemma HandsOver(a: multiset<Fragment>, h: multiset<Fragment>, h': multiset<Fragment>, x: multiset<Fragment>)
    requires h' + x == h + multiset{}
    ensures a + x + h' == a + h
  {
    assert h + multiset{} == h;
  }

  lemma TakesUp(a: multiset<Fragment>, h: multiset<Fragment>, h': multiset<Fragment>, x: multiset<Fragment>)
    requires h' + multiset{} == h + x
    ensures a + h' == a + h + x
  {
    assert h' + multiset{} == h';
  }

  lemma Unchanged(a: multiset<Fragment>, b: multiset<Fragment>)
    requires a + multiset{} == b + multiset{}
    ensures a == b
  {
    assert a + multiset{} == a && b + multiset{} == b;
  }

  /** The barrier opens only when no thread holds a fragment. */
  lemma QuietIsQuiet(j: Job, s: State, w: nat)
    requires CountsOk(s) && HandsOk(j, s) && AllQuiet(s) && w < |s.workers|
    ensures s.workers[w].Idle? || s.workers[w].Gone?
  {
    hide InHands, QueuedOf;
    if s.workers[w].Held? || s.workers[w].Submitted? {
      var f := s.workers[w].fragment.file;
      InHandsAtLeast(s.workers, w, f);
      assert false;
    }
  }

  lemma BarrierStep(j: Job, s: State, step: Step)
    requires j.Valid() && Inv(j, s) && Enabled(j, s, step)
    ensures BarrierOk(Apply(j, s, step))
  {
    hide Opened, Fragments, QueuedOf, InHands, Bytes, CountsOk, HandsOk, Accounted;
    if step.PassBarrier? {
      forall w: nat | w < |s.workers|
        ensures s.workers[w].Idle? || s.workers[w].Gone?
      {
        QuietIsQuiet(j, s, w);
      }
    }
  }

  lemma InvStep(j: Job, s: State, step: Step)
    requires j.Valid() && Inv(j, s) && Enabled(j, s, step)
    ensures Inv(j, Apply(j, s, step))
  {
    hide Inv, ParserOk, QueueOk, CountsOk, HandsOk, Accounted, BarrierOk, Enabled, Apply;
    ParserStep(j, s, step);
    QueueStep(j, s, step);
    CountsStep(j, s, step);
    HandsStep(j, s, step);
    AccountedStep(j, s, step);
    BarrierStep(j, s, step);
    TogetherInv(j, Apply(j, s, step));
  }

  lemma TogetherInv(j: Job, s: State)
    requires ParserOk(j, s) && QueueOk(j, s) && CountsOk(s) && HandsOk(j, s) && Accounted(j, s) && BarrierOk(s)
    ensures Inv(j, s)
  {
    hide ParserOk, QueueOk, CountsOk, HandsOk, Accounted, BarrierOk;
  }

  lemma {:induction false} InvOnEveryRun(j: Job, s: State, steps: seq<Step>, s': State)
    requires j.Valid() && Inv(j, s) && Path(j, s, steps, s')
    ensures Inv(j, s')
    decreases |steps|
  {
    hide Inv, Apply, Enabled;
    if steps != [] {
      InvStep(j, s, steps[0]);
      InvOnEveryRun(j, Apply(j, s, steps[0]), steps[1..], s');
    }
  }

  /** The drain barrier: on every run, once the parser has passed its wait, every fragment that was enqueued has been
      submitted exactly once, before any writer is drained, and no thread submits anything any more. */
  lemma DrainBarrier(j: Job, steps: seq<Step>, s: State)
    requires j.Valid() && Path(j, Init(j), steps, s) && (s.parser.Draining? || s.parser.Stopping?)
    ensures multiset(s.submitted) == multiset(Fragments(j.actions))
    ensures forall w :: !Enabled(j, s, Submit(w)) && !Enabled(j, s, Pop(w))
  {
    hide Path, Fragments, Opened, HeldAll, CountsOk;
    InitInv(j);
    InvOnEveryRun(j, Init(j), steps, s);
    NobodyHolds(s.workers);
    assert j.actions[..|j.actions|] == j.actions;
    assert Fragments(j.actions)[..|Fragments(j.actions)|] == Fragments(j.actions);
  }

  /** How many writes some actions hold. */
  function Puts(actions: seq<Action>): nat {
    if actions == [] then 0 else Puts(actions[..|actions| - 1]) + if actions[|actions| - 1].Put? then 1 else 0
  }

  /** Every write of the parser is one fragment, with its file, its place and its data, and there are no others. */
  lemma {:induction false} FragmentOfPut(actions: seq<Action>, k: nat)
    requires k < |actions|
    ensures |Fragments(actions)| == Puts(actions)
    ensures actions[k].Put? ==>
              var i, a := Puts(actions[..k]), actions[k];
              i < Puts(actions) && Fragments(actions)[i] == Fragment(i, a.file, a.offset, a.data)
    decreases |actions|
  {
    var n: nat := |actions| - 1;
    if n > 0 {
      FragmentOfPut(actions[..n], if k < n then k else 0);
    }
    if k < n {
      assert actions[..n][..k] == actions[..k];
    }
  }

  lemma {:induction false} FragmentNumbers(actions: seq<Action>, i: nat)
    requires i < |Fragments(actions)|
    ensures Fragments(actions)[i].id == i
    decreases |actions|
  {
    var init := actions[..|actions| - 1];
    if i < |Fragments(init)| {
      FragmentNumbers(init, i);
    }
  }

  /** Different numbers, different fragments: none occurs twice. */
  lemma {:induction false} OnlyOnce(items: seq<Fragment>, i: nat, n: nat)
    requires i < |items| && n <= |items| && forall k :: 0 <= k < |items| ==> items[k].id == k
    ensures multiset(items[..n])[items[i]] == if i < n then 1 else 0
  {
    if n == 0 {
      assert items[..0] == [];
    } else {
      OnlyOnce(items, i, n - 1);
      assert items[..n] == items[..n - 1] + [items[n - 1]];
    }
  }

  /** Behind the barrier, the data of every write has been submitted exactly once, to its file and at its place, and
      nothing else has been submitted. */
  lemma EveryPutSubmitted(j: Job, steps: seq<Step>, s: State, k: nat)
    requires j.Valid() && Path(j, Init(j), steps, s) && (s.parser.Draining? || s.parser.Stopping?)
    requires k < |j.actions|
    ensures |s.submitted| == Puts(j.actions)
    ensures j.actions[k].Put? ==>
              var a := j.actions[k];
              multiset(s.submitted)[Fragment(Puts(j.actions[..k]), a.file, a.offset, a.data)] == 1
  {
    hide Path, Fragments, Opened, Puts;
    DrainBarrier(j, steps, s);
    FragmentOfPut(j.actions, k);
    var all := Fragments(j.actions);
    assert |multiset(s.submitted)| == |multiset(all)|;
    if j.actions[k].Put? {
      forall i | 0 <= i < |all|
        ensures all[i].id == i
      {
        FragmentNumbers(j.actions, i);
      }
      OnlyOnce(all, Puts(j.actions[..k]), |all|);
      assert all[..|all|] == all;
    }
  }

  // ---- The backlog -------------------------------------------------------------------------------

  /** The length of the longest fragment. */
  function Longest(actions: seq<Action>): (m: nat)
    ensures forall k :: 0 <= k < |actions| && actions[k].Put? ==> |actions[k].data| <= m
    ensures m == 0 || exists k :: 0 <= k < |actions| && actions[k].Put? && |actions[k].data| == m
  {
    if actions == [] then 0
    else
      var m, last := Longest(actions[..|actions| - 1]), actions[|actions| - 1];
      if last.Put? && |last.data| > m then |last.data| else m
  }

  lemma BacklogStep(j: Job, s: State, step: Step)
    requires Enabled(j, s, step) && s.queuedBytes < 2147483648 + Longest(j.actions)
    ensures Apply(j, s, step).queuedBytes < 2147483648 + Longest(j.actions)
  {
    hide Longest;
  }

  lemma {:induction false} BacklogFrom(j: Job, s0: State, steps: seq<Step>, s: State)
    requires Path(j, s0, steps, s) && s0.queuedBytes < 2147483648 + Longest(j.actions)
    ensures s.queuedBytes < 2147483648 + Longest(j.actions)
    decreases |steps|
  {
    hide Enabled, Apply, Longest;
    if steps != [] {
      BacklogStep(j, s0, steps[0]);
      BacklogFrom(j, Apply(j, s0, steps[0]), steps[1..], s);
    }
  }

  /** On every run less than 2 GiB and the longest fragment wait in the queue. */
  lemma BacklogBounded(j: Job, steps: seq<Step>, s: State)
    requires Path(j, Init(j), steps, s)
    ensures s.queuedBytes < 2147483648 + Longest(j.actions)
  {
    hide Path, Longest;
    BacklogFrom(j, Init(j), steps, s);
  }

  /** The parser waits for nothing else: a write can be enqueued exactly while less than 2 GiB wait. */
  lemma EnqueueIff(j: Job, steps: seq<Step>, s: State)
    requires j.Valid() && Path(j, Init(j), steps, s)
    requires s.parser.Running? && s.parser.next < |j.actions| && j.actions[s.parser.next].Put?
    ensures Enabled(j, s, Enqueue) <==> s.queuedBytes < 2147483648
  {
    hide Path, Fragments, Opened, HeldAll, InHands, QueuedOf, Accounted, BarrierOk, CountsOk, HandsOk, QueueOk;
    InitInv(j);
    InvOnEveryRun(j, Init(j), steps, s);
  }

  /** The counters are true on every run, so no subtraction saturates. */
  lemma NothingSaturates(j: Job, steps: seq<Step>, s: State, step: Step)
    requires j.Valid() && Path(j, Init(j), steps, s) && Enabled(j, s, step)
    ensures s.queuedBytes == Bytes(s.queue)
    ensures forall f :: 0 <= f < |s.files| ==> s.files[f] == QueuedOf(s.queue, f) + InHands(s.workers, f)
    ensures step.Pop? ==> |s.queue[0].data| <= s.queuedBytes
    ensures step.CountDown? ==>
              s.workers[step.w].fragment.file < |s.files| && s.files[s.workers[step.w].fragment.file] >= 1
  {
    hide Path, Fragments, Opened, HeldAll, InHands, QueuedOf, Accounted, BarrierOk, ParserOk;
    InitInv(j);
    InvOnEveryRun(j, Init(j), steps, s);
    CountsStep(j, s, step);
  }

  // ---- Progress ----------------------------------------------------------------------------------

  function PcRank(pc: WorkerPc): nat {
    match pc
    case Idle => 1
    case Held(_) => 4
    case Submitted(_) => 3
    case Gone => 0
  }

  function PcRanks(workers: seq<WorkerPc>): nat {
    if workers == [] then 0 else PcRanks(workers[..|workers| - 1]) + PcRank(workers[|workers| - 1])
  }

  function ParserRank(j: Job, s: State): nat {
    match s.parser
    case Running(next) => 10 * SatSub(|j.actions|, next) + Opened(j.actions) + 3
    case Barrier => Opened(j.actions) + 2
    case Draining(file) => SatSub(Opened(j.actions), file) + 1
    case Stopping => 0
  }

  function Rank(j: Job, s: State): nat {
    ParserRank(j, s) + 5 * |s.queue| + PcRanks(s.workers)
  }

  lemma {:induction false} PcRanksUpdate(workers: seq<WorkerPc>, w: nat, pc: WorkerPc)
    requires w < |workers|
    ensures PcRanks(workers[w := pc]) + PcRank(workers[w]) == PcRanks(workers) + PcRank(pc)
    decreases |workers|
  {
    hide PcRank;
    var n := |workers| - 1;
    if w < n {
      PcRanksUpdate(workers[..n], w, pc);
      assert workers[w := pc][..n] == workers[..n][w := pc];
    } else {
      assert workers[w := pc][..n] == workers[..n];
    }
  }

  /** Every step brings the end closer, so every run is finite. */
  lemma StepRank(j: Job, s: State, step: Step)
    requires j.Valid() && Inv(j, s) && Enabled(j, s, step)
    ensures Rank(j, Apply(j, s, step)) < Rank(j, s)
  {
    hide Opened, Fragments, QueuedOf, InHands, Bytes, QueueOk, CountsOk, HandsOk, Accounted, BarrierOk, PcRanks;
    ParserStep(j, s, step);
    var s' := Apply(j, s, step);
    if IsWorkerStep(step) {
      PcRanksUpdate(s.workers, step.w, s'.workers[step.w]);
      assert s.workers[step.w := s'.workers[step.w]] == s'.workers;
    }
    assert j.actions[..|j.actions|] == j.actions;
  }

  predicate Ended(s: State) {
    s.parser.Stopping? && forall w :: 0 <= w < |s.workers| ==> s.workers[w].Gone?
  }

  lemma {:induction false} FindHand(workers: seq<WorkerPc>, f: nat) returns (w: nat)
    requires InHands(workers, f) > 0
    ensures w < |workers| && InHand(workers[w], f) > 0
    decreases |workers|
  {
    hide InHand;
    var n := |workers| - 1;
    if InHand(workers[n], f) > 0 {
      w := n;
    } else {
      w := FindHand(workers[..n], f);
    }
  }

  lemma NothingQueued(queue: seq<Fragment>, f: nat)
    ensures queue == [] ==> QueuedOf(queue, f) == 0 && Bytes(queue) == 0
  {
  }

  /** A thread that has not left can step when there is something to do for it. */
  function WorkerStep(s: State, w: nat): Step
    requires w < |s.workers|
  {
    if s.workers[w].Held? then Submit(w) else if s.workers[w].Submitted? then CountDown(w)
    else if s.queue != [] then Pop(w) else Leave(w)
  }

  /** A run stops only at the end: the barrier opens, and the threads can be joined. */
  lemma NeverStuck(j: Job, s: State) returns (step: Step)
    requires j.Valid() && Inv(j, s) && !Ended(s)
    ensures Enabled(j, s, step)
  {
    hide Opened, Fragments, QueuedOf, InHands, Accounted, BarrierOk, Bytes;
    NothingQueued(s.queue, 0);
    match s.parser
    case Running(next) =>
      if next == |j.actions| {
        step := CloseQueue;
      } else if j.actions[next].Open? {
        step := OpenFile;
      } else if s.queuedBytes < BACKLOG_BYTES {
        step := Enqueue;
      } else {
        step := WorkerStep(s, 0);
      }
    case Barrier =>
      if AllQuiet(s) {
        step := PassBarrier;
      } else if s.queue != [] {
        step := WorkerStep(s, 0);
      } else {
        var f: nat :| f < |s.files| && s.files[f] != 0;
        NothingQueued(s.queue, f);
        var w := FindHand(s.workers, f);
        step := WorkerStep(s, w);
      }
    case Draining(file) => step := if file < |s.files| then DrainWriter else StopThreads;
    case Stopping =>
      var w: nat :| w < |s.workers| && !s.workers[w].Gone?;
      step := WorkerStep(s, w);
  }

  /** From every state that satisfies the invariant a run goes on to the end. */
  lemma {:induction false} EndsFrom(j: Job, s: State) returns (steps: seq<Step>, s': State)
    requires j.Valid() && Inv(j, s)
    ensures Path(j, s, steps, s') && Inv(j, s') && Ended(s')
    decreases Rank(j, s)
  {
    hide Inv, Apply, Enabled, Rank, Ended;
    if Ended(s) {
      return [], s;
    }
    var step := NeverStuck(j, s);
    InvStep(j, s, step);
    StepRank(j, s, step);
    var rest;
    rest, s' := EndsFrom(j, Apply(j, s, step));
    steps := [step] + rest;
    assert steps[1..] == rest;
  }

  /** Every job has a run to its end: the parser has stopped the threads, and all of them are gone. */
  lemma RunsToEnd(j: Job) returns (steps: seq<Step>, s: State)
    requires j.Valid()
    ensures Path(j, Init(j), steps, s) && s.parser.Stopping? && |s.workers| == j.threads
    ensures forall w :: 0 <= w < j.threads ==> s.workers[w].Gone?
  {
    hide Path;
    InitInv(j);
    steps, s := EndsFrom(j, Init(j));
  }
}
