/** What every run of the compression pipeline keeps: where the chunks are, and what the byte counters hold. */
module PipelineSafety {
  import opened Pipeline
  import opened Sums

  // ---- Where the chunks are ----------------------------------------------------------------------

  function UpTo(n: nat): (r: seq<nat>)
    ensures |r| == n && forall i :: 0 <= i < n ==> r[i] == i
  {
    seq(n, i => i)
  }

  function HeldBy(pc: WorkerPc): multiset<nat> {
    match pc
    case Busy(tasks) => multiset(tasks)
    case Publishing(items) => multiset(Indexes(items))
    case _ => multiset{}
  }

  function Held(workers: seq<WorkerPc>): multiset<nat> {
    if workers == [] then multiset{} else Held(workers[..|workers| - 1]) + HeldBy(workers[|workers| - 1])
  }

  function InHand(pc: WriterPc): multiset<nat> {
    match pc
    case Got(item) => multiset{item.index}
    case GotTotal(item, _) => multiset{item.index}
    case _ => multiset{}
  }

  /** How many chunks the producer has put into the queue. */
  function Pushed(s: State): nat {
    if (s.producer.Counting? || s.producer.Pushing?) && s.read > 0 then s.read - 1 else s.read
  }

  function Places(s: State): multiset<nat> {
    multiset(s.queue) + Held(s.workers) + multiset(s.ready.Keys) + InHand(s.writer) + multiset(UpTo(|s.out|))
  }

  /** Every chunk handed out so far is in exactly one place: queue, a worker, ready, the writer's hand, the output. */
  ghost predicate Partition(s: State) {
    Places(s) == multiset(UpTo(Pushed(s)))
  }

  lemma AddToBoth(a: multiset<nat>, x: multiset<nat>, b: multiset<nat>, y: multiset<nat>, d: multiset<nat>)
    requires a + x == b + y
    ensures a + d + x == b + d + y
  {
    assert a + d + x == (a + x) + d && b + d + y == (b + y) + d;
  }

  lemma {:induction false} HeldUpdate(workers: seq<WorkerPc>, w: nat, pc: WorkerPc)
    requires w < |workers|
    ensures Held(workers[w := pc]) + HeldBy(workers[w]) == Held(workers) + HeldBy(pc)
    decreases |workers|
  {
    hide HeldBy;
    var n := |workers| - 1;
    if w < n {
      HeldUpdate(workers[..n], w, pc);
      assert workers[w := pc][..n] == workers[..n][w := pc];
      AddToBoth(Held(workers[..n][w := pc]), HeldBy(workers[w]), Held(workers[..n]), HeldBy(pc), HeldBy(workers[n]));
    } else {
      assert workers[w := pc][..n] == workers[..n];
    }
  }

  lemma {:induction false} HeldContains(workers: seq<WorkerPc>, w: nat)
    requires w < |workers|
    ensures HeldBy(workers[w]) <= Held(workers)
    decreases |workers|
  {
    hide HeldBy;
    if w < |workers| - 1 {
      HeldContains(workers[..|workers| - 1], w);
    }
  }

  lemma {:induction false} NoneHeld(workers: seq<WorkerPc>)
    requires forall w :: 0 <= w < |workers| ==> HeldBy(workers[w]) == multiset{}
    ensures Held(workers) == multiset{}
    decreases |workers|
  {
    hide HeldBy;
    if workers != [] {
      NoneHeld(workers[..|workers| - 1]);
    }
  }

  lemma {:induction false} UpToOnce(n: nat, i: nat)
    ensures multiset(UpTo(n))[i] == if i < n then 1 else 0
  {
    if n > 0 {
      UpToOnce(n - 1, i);
      assert UpTo(n) == UpTo(n - 1) + [n - 1];
    } else {
      assert UpTo(n) == [];
    }
  }

  lemma UpToGrows(n: nat)
    ensures multiset(UpTo(n + 1)) == multiset(UpTo(n)) + multiset{n}
  {
    assert UpTo(n + 1) == UpTo(n) + [n];
  }

  lemma {:induction false} TakeBatchParts(c: Config, queue: seq<nat>, limit: nat)
    ensures multiset(TakeBatch(c, queue, limit).0) + multiset(TakeBatch(c, queue, limit).1) == multiset(queue)
    decreases |queue|
  {
    hide Config.Eligible;
    if queue != [] && limit > 0 {
      var taken := c.Eligible(queue[0]);
      var r := TakeBatch(c, queue[1..], if taken then limit - 1 else limit);
      TakeBatchParts(c, queue[1..], if taken then limit - 1 else limit);
      assert queue == [queue[0]] + queue[1..];
      assert TakeBatch(c, queue, limit) == if taken then ([queue[0]] + r.0, r.1) else (r.0, [queue[0]] + r.1);
    }
  }

  lemma {:induction false} TakeBatchBytes(c: Config, queue: seq<nat>, limit: nat)
    ensures RawBytes(c, TakeBatch(c, queue, limit).0) + RawBytes(c, TakeBatch(c, queue, limit).1) == RawBytes(c, queue)
    decreases |queue|
  {
    hide Config.Eligible, Config.Raw;
    if queue != [] && limit > 0 {
      var taken := c.Eligible(queue[0]);
      var r := TakeBatch(c, queue[1..], if taken then limit - 1 else limit);
      TakeBatchBytes(c, queue[1..], if taken then limit - 1 else limit);
      assert ([queue[0]] + r.0)[1..] == r.0 && ([queue[0]] + r.1)[1..] == r.1;
    }
  }

  lemma TakeBatchSplits(c: Config, queue: seq<nat>, limit: nat)
    ensures var (batch, rest) := TakeBatch(c, queue, limit);
            && multiset(batch) + multiset(rest) == multiset(queue)
            && RawBytes(c, batch) + RawBytes(c, rest) == RawBytes(c, queue)
  {
    hide TakeBatch, RawBytes;
    TakeBatchParts(c, queue, limit);
    TakeBatchBytes(c, queue, limit);
  }

  lemma TakeFirstSplits(c: Config, queue: seq<nat>)
    ensures RawBytes(c, []) == 0
    ensures queue != [] ==>
              && multiset([queue[0]]) + multiset(queue[1..]) == multiset(queue)
              && RawBytes(c, [queue[0]]) + RawBytes(c, queue[1..]) == RawBytes(c, queue)
  {
    if queue != [] {
      assert queue == [queue[0]] + queue[1..];
      assert [queue[0]][1..] == [];
    }
  }

  lemma TakenSplits(c: Config, w: nat, queue: seq<nat>)
    ensures var (tasks, rest) := Taken(c, w, queue);
            multiset(tasks) + multiset(rest) == multiset(queue)
                && RawBytes(c, tasks) + RawBytes(c, rest) == RawBytes(c, queue)
  {
    hide RawBytes, TakeBatch, Config.Raw;
    if c.IsGpu(w) {
      TakeBatchSplits(c, queue, c.batchLimit);
    } else {
      TakeFirstSplits(c, queue);
    }
  }

  // ---- Which program points go together ----------------------------------------------------------

  ghost predicate ProducerShape(c: Config, s: State) {
    && s.read <= |c.chunks| && s.closed == s.producer.Stopped?
    && match s.producer {
      case AtGate => s.total == s.read
      case Reading => s.total == s.read
      case Counting => s.total + 1 == s.read
      case Pushing => s.total == s.read > 0
      case Stopped => s.total == s.read == |c.chunks|
    }
  }

  ghost predicate WriterShape(s: State) {
    && (forall k :: 0 <= k < |s.out| ==> s.out[k].index == k)
    && (forall k :: k in s.ready ==> s.ready[k].index == k)
    && match s.writer {
      case Got(item) => item.index == s.next == |s.out|
      case GotTotal(item, seen) => item.index == s.next == |s.out| && seen <= s.total
      case Wrote(item) => item.index == s.next && |s.out| == s.next + 1
      case Released(item) => item.index == s.next && |s.out| == s.next + 1
      case CheckingClosed(seen) => |s.out| == s.next && seen <= s.total
      case Exited => |s.out| == s.next && s.closed
      case _ => |s.out| == s.next
    }
  }

  /** A CPU worker holds one task at a time, a batch is never empty, and workers leave only a closed queue. */
  ghost predicate WorkerShape(c: Config, s: State, w: nat)
    requires WorkerAt(s, w)
  {
    match s.workers[w]
    case Busy(tasks) => tasks != [] && (!c.IsGpu(w) ==> |tasks| == 1)
    case Publishing(items) =>
      && items != [] && (!c.IsGpu(w) ==> |items| == 1)
      && forall k :: 0 <= k < |items| ==> ItemOk(c, items[k])
    case Done => s.closed && (!c.IsGpu(w) ==> s.queue == [])
    case _ => true
  }

  ghost predicate WorkersShape(c: Config, s: State) {
    && |s.workers| == c.WorkerCount()
    && (forall w :: 0 <= w < |s.workers| ==> WorkerShape(c, s, w))
    && forall k :: k in s.ready ==> ItemOk(c, s.ready[k])
  }

  // ---- What the counters hold --------------------------------------------------------------------

  ghost function ReadyBytes(ready: map<nat, Item>): int {
    Sum(ready.Keys, SizeIn(ready))
  }

  function SizeIn(ready: map<nat, Item>): nat -> int {
    (k: nat) => if k in ready then ready[k].prepared else 0
  }

  function RawBetween(c: Config, lo: nat, hi: nat): nat {
    if hi <= lo then 0 else RawBetween(c, lo, hi - 1) + c.Raw(hi - 1)
  }

  /** The first chunk whose bytes the writer has not yet released. */
  function FirstHeld(s: State): nat {
    if s.writer.Wrote? && |s.out| > 0 then |s.out| - 1 else |s.out|
  }

  /** The byte counters are the true sums: raw bytes in the queue, compressed bytes that are ready, raw bytes read
      and not yet released. */
  ghost predicate Counters(c: Config, s: State) {
    && s.queuedBytes == RawBytes(c, s.queue)
    && s.readyBytes == ReadyBytes(s.ready)
    && s.inflight == RawBetween(c, FirstHeld(s), s.read)
  }

  ghost predicate Safe(c: Config, s: State) {
    && ProducerShape(c, s) && WriterShape(s) && WorkersShape(c, s)
    && Partition(s) && Counters(c, s) && !s.duplicate
  }

  // ---- Consequences of the partition -------------------------------------------------------------

  /** No place holds a chunk that another place holds. */
  lemma PlaceOnce(s: State, i: nat)
    requires Partition(s)
    ensures multiset(s.queue)[i] + Held(s.workers)[i] + multiset(s.ready.Keys)[i] + InHand(s.writer)[i]
            + multiset(UpTo(|s.out|))[i] == if i < Pushed(s) then 1 else 0
  {
    hide Held, InHand, UpTo;
    UpToOnce(Pushed(s), i);
    assert Places(s)[i] == multiset(UpTo(Pushed(s)))[i];
  }

  lemma {:induction false} SeqTwice(items: seq<nat>, j: nat, k: nat)
    requires j < k < |items| && items[j] == items[k]
    ensures multiset(items)[items[j]] >= 2
  {
    assert items == items[..k] + [items[k]] + items[k + 1..];
    assert items[..k][j] == items[j];
    assert items[j] in multiset(items[..k]);
  }

  /** What a worker is about to publish is not ready yet, and holds no chunk twice. */
  lemma PublishIsFresh(c: Config, s: State, w: nat)
    requires Partition(s) && WorkerAt(s, w) && s.workers[w].Publishing?
    ensures Fresh(s.ready, s.workers[w].items)
  {
    hide Held, UpTo, InHand, Partition;
    var items := s.workers[w].items;
    var indexes := Indexes(items);
    HeldContains(s.workers, w);
    forall k | 0 <= k < |items|
      ensures items[k].index !in s.ready
    {
      PlaceOnce(s, items[k].index);
      assert indexes[k] in multiset(indexes);
    }
    forall j, k | 0 <= j < k < |items|
      ensures items[j].index != items[k].index
    {
      PlaceOnce(s, items[j].index);
      if items[j].index == items[k].index {
        SeqTwice(indexes, j, k);
      }
    }
  }
}
