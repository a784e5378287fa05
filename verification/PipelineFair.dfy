/** Termination of the compression pipeline under any fair scheduler. */
module PipelineFair {
  import opened Pipeline
  import opened PipelineSafety
  import opened PipelineRuns
  import opened PipelineProgress

  datatype Thread = Producer | Worker(w: nat) | Writer

  function ThreadOf(step: Step): Thread {
    if IsProducerStep(step) then Producer
    else if IsWorkerStep(step) then Worker(step.w)
    else Writer
  }

  ghost predicate CanStep(c: Config, s: State, t: Thread) {
    exists step :: Enabled(c, s, step) && ThreadOf(step) == t
  }

  /** A run without end: the states it goes through and the steps it takes. */
  ghost predicate Endless(c: Config, at: nat -> State, step: nat -> Step) {
    at(0) == Init(c) && forall i: nat :: Enabled(c, at(i), step(i)) && at(i + 1) == Apply(c, at(i), step(i))
  }

  /** From `i` on the thread can always take a step and never does. */
  ghost predicate Starved(c: Config, at: nat -> State, step: nat -> Step, i: nat, t: Thread) {
    forall j: nat :: j >= i ==> CanStep(c, at(j), t) && ThreadOf(step(j)) != t
  }

  lemma {:induction false} SafeAt(c: Config, at: nat -> State, step: nat -> Step, i: nat)
    requires c.Valid() && Endless(c, at, step)
    ensures Safe(c, at(i)) && Going(c, at(i))
  {
    hide Safe, Going, Enabled, Apply, Config.Valid;
    if i == 0 {
      SafeInit(c);
      GoingInit(c);
    } else {
      SafeAt(c, at, step, i - 1);
      SafeStep(c, at(i - 1), step(i - 1));
      GoingStep(c, at(i - 1), step(i - 1));
    }
  }

  lemma {:induction false} RankFalls(c: Config, at: nat -> State, step: nat -> Step, i: nat, j: nat)
    requires c.Valid() && Endless(c, at, step) && i <= j
    ensures Rank(c, at(j)) <= Rank(c, at(i))
    decreases j - i
  {
    hide Safe, Going, Enabled, Apply, Config.Valid, Rank, IdlePoll;
    if i < j {
      SafeAt(c, at, step, i);
      StepRank(c, at(i), step(i));
      RankFalls(c, at, step, i + 1, j);
    }
  }

  /** The rank cannot fall for ever. */
  lemma {:induction false} RankSettles(c: Config, at: nat -> State, step: nat -> Step, i: nat) returns (k: nat)
    requires c.Valid() && Endless(c, at, step)
    ensures forall j: nat :: j >= k ==> Rank(c, at(j)) == Rank(c, at(k))
    decreases Rank(c, at(i))
  {
    hide Enabled, Apply, Config.Valid, Rank, Endless;
    if j: nat :| j >= i && Rank(c, at(j)) < Rank(c, at(i)) {
      k := RankSettles(c, at, step, j);
    } else {
      k := i;
      forall j: nat | j >= i
        ensures Rank(c, at(j)) == Rank(c, at(i))
      {
        RankFalls(c, at, step, i, j);
      }
    }
  }

  /** From then on the writer polls in vain. */
  lemma OnlyPolls(c: Config, at: nat -> State, step: nat -> Step, k: nat, j: nat)
    requires c.Valid() && Endless(c, at, step) && j >= k
    requires forall i: nat :: i >= k ==> Rank(c, at(i)) == Rank(c, at(k))
    ensures Enabled(c, at(j), step(j)) && at(j + 1) == Apply(c, at(j), step(j)) && IdlePoll(at(j), step(j))
  {
    hide Enabled, Apply, Config.Valid, Rank, Safe, IdlePoll;
    SafeAt(c, at, step, j);
    StepRank(c, at(j), step(j));
    assert Rank(c, at(j)) == Rank(c, at(k)) && Rank(c, at(j + 1)) == Rank(c, at(k));
  }

  /** A poll changes the writer's program point and nothing else. */
  lemma PollKeeps(c: Config, s: State, step: Step)
    requires Enabled(c, s, step) && IdlePoll(s, step)
    ensures Apply(c, s, step) == s.(writer := Apply(c, s, step).writer)
  {
    hide Taken, Compressed, Fresh, InsertAll, LimitHit;
  }

  lemma {:induction false} PollsKeep(c: Config, at: nat -> State, step: nat -> Step, k: nat, j: nat)
    requires c.Valid() && Endless(c, at, step) && j >= k
    requires forall i: nat :: i >= k ==> Rank(c, at(i)) == Rank(c, at(k))
    ensures at(j) == at(k).(writer := at(j).writer)
    decreases j - k
  {
    hide Enabled, Apply, Config.Valid, Rank, IdlePoll, Endless;
    if j > k {
      PollsKeep(c, at, step, k, j - 1);
      OnlyPolls(c, at, step, k, j - 1);
      PollKeeps(c, at(j - 1), step(j - 1));
    }
  }

  /** The other threads do not look at the writer's program point. */
  lemma EnabledElsewhere(c: Config, s: State, writer: WriterPc, step: Step)
    requires Enabled(c, s, step) && ThreadOf(step) != Writer
    ensures Enabled(c, s.(writer := writer), step)
  {
    hide Taken, Compressed, ItemBytes, Config.ReadyByteCap;
  }

  /** A writer that polls in vain has no other step. */
  lemma PollIsOnly(c: Config, s: State, poll: Step, step: Step)
    requires Enabled(c, s, poll) && IdlePoll(s, poll) && Enabled(c, s, step) && !IdlePoll(s, step)
    ensures ThreadOf(step) != Writer
  {
    hide Taken, Compressed, Fresh, InsertAll, LimitHit, MayPublish;
  }

  /** Every fair run ends: a run without end lets some thread other than the writer wait for ever although it could
      always take a step. */
  lemma EndlessRunStarves(c: Config, m: nat, at: nat -> State, step: nat -> Step) returns (k: nat, t: Thread)
    requires Ends(c, m) && Endless(c, at, step)
    ensures t != Writer && Starved(c, at, step, k, t)
  {
    hide Enabled, Apply, Rank, IdlePoll, Safe, Going, Ends, Endless, ThreadOf;
    ValidRoom(c, m);
    k := RankSettles(c, at, step, 0);
    SafeAt(c, at, step, k);
    OnlyPolls(c, at, step, k, k);
    StillThere(c, at(k), step(k));
    var next := NeverStuck(c, at(k), m);
    PollIsOnly(c, at(k), step(k), next);
    t := ThreadOf(next);
    forall j: nat | j >= k
      ensures CanStep(c, at(j), t) && ThreadOf(step(j)) != t
    {
      PollsKeep(c, at, step, k, j);
      OnlyPolls(c, at, step, k, j);
      EnabledElsewhere(c, at(k), at(j).writer, next);
      PollIsWriters(at(j), step(j));
    }
  }

  lemma ValidRoom(c: Config, m: nat)
    requires Ends(c, m)
    ensures c.Valid()
  {
  }

  lemma StillThere(c: Config, s: State, step: Step)
    requires Enabled(c, s, step) && IdlePoll(s, step)
    ensures !s.writer.Exited?
  {
    hide Taken, Compressed, LimitHit, MayPublish;
  }

  lemma PollIsWriters(s: State, step: Step)
    requires IdlePoll(s, step)
    ensures ThreadOf(step) == Writer
  {
  }
}
