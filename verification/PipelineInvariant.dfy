/** Every step of the compression pipeline keeps the safety invariant; so it holds on every run. */
module PipelineInvariant {
  import opened Pipeline
  import opened PipelineSafety
  import opened Sums

  // ---- Program points ----------------------------------------------------------------------------

  lemma ProducerShapeStep(c: Config, s: State, step: Step)
    requires ProducerShape(c, s) && WriterShape(s) && Enabled(c, s, step)
    ensures ProducerShape(c, Apply(c, s, step))
    ensures s.total <= Apply(c, s, step).total && (s.closed ==> Apply(c, s, step).closed)
  {
    hide Taken, Compressed, Fresh, InsertAll, RawBytes, ItemBytes, PreparedBytes, LimitHit, Config.ReadyByteCap;
  }

  lemma {:induction false} InsertAllIndexes(ready: map<nat, Item>, items: seq<Item>)
    requires forall k :: k in ready ==> ready[k].index == k
    ensures forall k :: k in InsertAll(ready, items) ==> InsertAll(ready, items)[k].index == k
    ensures forall k :: k in InsertAll(ready, items) ==>
              (k in ready && InsertAll(ready, items)[k] == ready[k]) || InsertAll(ready, items)[k] in items
    ensures forall k :: k in ready ==> k in InsertAll(ready, items)
  {
    if items != [] {
      InsertAllIndexes(ready, items[..|items| - 1]);
    }
  }

  lemma WriterShapeStep(c: Config, s: State, step: Step)
    requires ProducerShape(c, s) && WriterShape(s) && Enabled(c, s, step)
    ensures WriterShape(Apply(c, s, step))
  {
    hide Taken, Compressed, Fresh, InsertAll, RawBytes, ItemBytes, PreparedBytes, LimitHit, Config.ReadyByteCap;
    ProducerShapeStep(c, s, step);
    if step.Publish? {
      InsertAllIndexes(s.ready, s.workers[step.w].items);
    }
  }

  lemma WorkersShapeStep(c: Config, s: State, step: Step)
    requires ProducerShape(c, s) && WriterShape(s) && WorkersShape(c, s) && Enabled(c, s, step)
    ensures WorkersShape(c, Apply(c, s, step))
  {
    hide Fresh, InsertAll, RawBytes, ItemBytes, PreparedBytes, LimitHit, Config.ReadyByteCap, ItemOk;
    hide WorkerShape, Taken, Compressed;
    var s' := Apply(c, s, step);
    if step.Publish? {
      assert WorkerShape(c, s, step.w);
      PublishedOk(c, s, step.w);
      InsertAllIndexes(s.ready, s.workers[step.w].items);
    }
    forall w | 0 <= w < |s'.workers|
      ensures WorkerShape(c, s', w)
    {
      OneWorker(c, s, step, w);
    }
  }

  lemma PublishedOk(c: Config, s: State, w: nat)
    requires WorkerAt(s, w) && WorkerShape(c, s, w) && s.workers[w].Publishing?
    ensures forall item :: item in s.workers[w].items ==> ItemOk(c, item)
  {
    hide ItemOk;
  }

  lemma TakenOfNothing(c: Config, w: nat)
    ensures Taken(c, w, []) == ([], [])
  {
  }

  lemma OneWorker(c: Config, s: State, step: Step, w: nat)
    requires ProducerShape(c, s) && WriterShape(s) && WorkersShape(c, s) && Enabled(c, s, step)
    requires WorkerAt(Apply(c, s, step), w)
    ensures WorkerShape(c, Apply(c, s, step), w)
  {
    hide Fresh, InsertAll, RawBytes, ItemBytes, PreparedBytes, LimitHit, Config.ReadyByteCap, ItemOk, CpuItem, Taken;
    ProducerShapeStep(c, s, step);
    assert WorkerAt(s, w) && WorkerShape(c, s, w);
    if step.TakeTasks? {
      TakenOfNothing(c, step.w);
      CpuTakesOne(c, step.w, s.queue);
    }
  }

  lemma CpuTakesOne(c: Config, w: nat, queue: seq<nat>)
    ensures !c.IsGpu(w) ==> |Taken(c, w, queue).0| <= 1
  {
  }

  // ---- Places ------------------------------------------------------------------------------------

  lemma {:induction false} InsertAllKeys(ready: map<nat, Item>, items: seq<Item>)
    requires Fresh(ready, items)
    ensures multiset(InsertAll(ready, items).Keys) == multiset(ready.Keys) + multiset(Indexes(items))
    decreases |items|
  {
    if items != [] {
      var init, last := items[..|items| - 1], items[|items| - 1];
      InsertAllKeys(ready, init);
      InsertAllKnows(ready, init, last.index);
      assert Indexes(items) == Indexes(init) + [last.index];
      var before := InsertAll(ready, init).Keys;
      assert InsertAll(ready, items).Keys == before + {last.index};
      assert multiset(before + {last.index}) == multiset(before) + multiset{last.index};
    } else {
      assert Indexes(items) == [];
    }
  }

  lemma {:induction false} InsertAllKnows(ready: map<nat, Item>, items: seq<Item>, k: nat)
    ensures k in InsertAll(ready, items) <==> k in ready || exists j :: 0 <= j < |items| && items[j].index == k
  {
    if items != [] {
      var n := |items| - 1;
      InsertAllKnows(ready, items[..n], k);
      assert items[n].index == k ==> exists j :: 0 <= j < |items| && items[j].index == k;
    }
  }

  /** Adding up five places in which `x` has moved from one to another, or been added. */
  lemma Moved(
    a: multiset<nat>, b: multiset<nat>, a': multiset<nat>, b': multiset<nat>, x: multiset<nat>,
    p: multiset<nat>, q: multiset<nat>, r: multiset<nat>)
    requires a == a' + x && b' == b + x
    ensures a + b + p + q + r == a' + b' + p + q + r
  {
  }

  lemma Reorder(q: multiset<nat>, h: multiset<nat>, r: multiset<nat>, i: multiset<nat>, u: multiset<nat>)
    ensures q + h + r + i + u == h + r + q + i + u && q + h + r + i + u == r + i + q + h + u
    ensures q + h + r + i + u == i + u + q + h + r
  {
  }

  lemma HeldBecomes(workers: seq<WorkerPc>, w: nat, pc: WorkerPc)
    requires w < |workers|
    ensures HeldBy(pc) == multiset{} ==> Held(workers) == Held(workers[w := pc]) + HeldBy(workers[w])
    ensures HeldBy(workers[w]) == multiset{} ==> Held(workers[w := pc]) == Held(workers) + HeldBy(pc)
    ensures HeldBy(workers[w]) == HeldBy(pc) ==> Held(workers[w := pc]) == Held(workers)
  {
    hide Held, HeldBy;
    HeldUpdate(workers, w, pc);
    NothingAdded(Held(workers), Held(workers[w := pc]), HeldBy(workers[w]), HeldBy(pc));
  }

  lemma NothingAdded(h: multiset<nat>, h': multiset<nat>, x: multiset<nat>, y: multiset<nat>)
    requires h' + x == h + y
    ensures y == multiset{} ==> h == h' + x
    ensures x == multiset{} ==> h' == h + y
    ensures x == y ==> h' == h
  {
    forall k: nat
      ensures (h' + x)[k] == h'[k] + x[k] && (h + y)[k] == h[k] + y[k]
    {
    }
    if x == y {
      assert forall k: nat :: h'[k] + x[k] == (h' + x)[k];
      assert forall k: nat :: h[k] + y[k] == (h + y)[k];
      assert forall k: nat :: h'[k] == h[k];
    }
  }

  ghost predicate SamePlaces(s: State, s': State) {
    Places(s') == Places(s)
  }

  lemma PublishPlaces(c: Config, s: State, w: nat)
    requires Partition(s) && WorkerAt(s, w) && s.workers[w].Publishing?
    ensures Fresh(s.ready, s.workers[w].items)
    ensures SamePlaces(s, ApplyWorker(c, s, Publish(w), w))
  {
    hide Held, UpTo, InHand, Fresh, InsertAll, Partition, ItemBytes, PreparedBytes, Indexes;
    PublishIsFresh(c, s, w);
    var s' := ApplyWorker(c, s, Publish(w), w);
    InsertAllKeys(s.ready, s.workers[w].items);
    HeldBecomes(s.workers, w, AtReadyGate);
    var q, i, u := multiset(s.queue), InHand(s.writer), multiset(UpTo(|s.out|));
    Moved(Held(s.workers), multiset(s.ready.Keys), Held(s'.workers), multiset(s'.ready.Keys),
          HeldBy(s.workers[w]), q, i, u);
    Reorder(q, Held(s.workers), multiset(s.ready.Keys), i, u);
    Reorder(q, Held(s'.workers), multiset(s'.ready.Keys), i, u);
  }

  lemma TakePlaces(c: Config, s: State, w: nat)
    requires WorkerAt(s, w) && s.workers[w].Taking?
    ensures SamePlaces(s, ApplyWorker(c, s, TakeTasks(w), w))
  {
    hide Held, UpTo, InHand, Taken, RawBytes, SatSub;
    var s' := ApplyWorker(c, s, TakeTasks(w), w);
    TakenSplits(c, w, s.queue);
    var tasks := Taken(c, w, s.queue).0;
    HeldBecomes(s.workers, w, Busy(tasks));
    assert multiset(s.queue) == multiset(s'.queue) + multiset(tasks);
    Moved(multiset(s.queue), Held(s.workers), multiset(s'.queue), Held(s'.workers),
          multiset(tasks), multiset(s.ready.Keys), InHand(s.writer), multiset(UpTo(|s.out|)));
  }

  lemma CompressPlaces(c: Config, s: State, w: nat, items: seq<Item>)
    requires WorkerAt(s, w) && s.workers[w].Busy? && Compressed(c, w, s.workers[w].tasks, items)
    ensures SamePlaces(s, ApplyWorker(c, s, Compress(w, items), w))
  {
    hide Held, UpTo, InHand, ItemOk, CpuItem, Places, Indexes;
    var s' := ApplyWorker(c, s, Compress(w, items), w);
    HeldBecomes(s.workers, w, Publishing(items));
    SameHeld(s, s');
  }

  lemma EmptyHandedPlaces(c: Config, s: State, w: nat, pc: WorkerPc)
    requires WorkerAt(s, w) && HeldBy(s.workers[w]) == multiset{} == HeldBy(pc)
    ensures SamePlaces(s, s.(workers := s.workers[w := pc]))
  {
    hide Held, UpTo, InHand;
    HeldBecomes(s.workers, w, pc);
  }

  lemma OneMore(q: multiset<nat>, h: multiset<nat>, r: multiset<nat>, i: multiset<nat>, u: multiset<nat>,
      x: multiset<nat>)
    ensures q + x + h + r + i + u == q + h + r + i + u + x
  {
  }

  lemma QueueLonger(s: State, s': State, last: nat)
    requires s'.queue == s.queue + [last] && s'.workers == s.workers && s'.ready == s.ready
    requires s'.writer == s.writer && s'.out == s.out
    ensures Places(s') == Places(s) + multiset{last}
  {
    hide Held, UpTo, InHand;
    OneMore(multiset(s.queue), Held(s.workers), multiset(s.ready.Keys), InHand(s.writer), multiset(UpTo(|s.out|)),
            multiset{last});
    assert multiset(s.queue + [last]) == multiset(s.queue) + multiset{last};
  }

  lemma PushPlaces(c: Config, s: State)
    requires s.producer.Pushing? && s.read > 0 && Partition(s)
    ensures Partition(ApplyProducer(c, s, PushTask))
  {
    hide Held, UpTo, InHand, RawBytes, Places;
    UpToGrows(s.read - 1);
    QueueLonger(s, ApplyProducer(c, s, PushTask), s.read - 1);
  }

  lemma PopPlaces(c: Config, s: State)
    requires WriterShape(s) && s.writer.Popping? && s.next in s.ready
    ensures SamePlaces(s, ApplyWriter(c, s, PopReady))
  {
    hide Held, UpTo, SatSub;
    var s' := ApplyWriter(c, s, PopReady);
    assert s.ready.Keys == s'.ready.Keys + {s.next};
    assert multiset(s.ready.Keys) == multiset(s'.ready.Keys) + multiset{s.next};
    var q, h, u := multiset(s.queue), Held(s.workers), multiset(UpTo(|s.out|));
    assert InHand(s'.writer) == InHand(s.writer) + multiset{s.next};
    Moved(multiset(s.ready.Keys), InHand(s.writer), multiset(s'.ready.Keys), InHand(s'.writer), multiset{s.next}, q,
        h, u);
    Reorder(q, h, multiset(s.ready.Keys), InHand(s.writer), u);
    Reorder(q, h, multiset(s'.ready.Keys), InHand(s'.writer), u);
  }

  lemma WritePlaces(c: Config, s: State)
    requires WriterShape(s) && s.writer.GotTotal?
    ensures SamePlaces(s, ApplyWriter(c, s, WriteOut))
  {
    hide Held, UpTo;
    var s' := ApplyWriter(c, s, WriteOut);
    UpToGrows(|s.out|);
    var q, h, r := multiset(s.queue), Held(s.workers), multiset(s.ready.Keys);
    assert InHand(s.writer) == InHand(s'.writer) + multiset{s.next};
    var u, u' := multiset(UpTo(|s.out|)), multiset(UpTo(|s'.out|));
    Moved(InHand(s.writer), u, InHand(s'.writer), u', multiset{s.next}, q, h, r);
    Reorder(q, h, r, InHand(s.writer), u);
    Reorder(q, h, r, InHand(s'.writer), u');
  }

  /** Chunks move between places; none is lost or doubled. */
  lemma PartitionStep(c: Config, s: State, step: Step)
    requires ProducerShape(c, s) && WriterShape(s) && Partition(s) && Enabled(c, s, step)
    ensures Partition(Apply(c, s, step)) && Apply(c, s, step).duplicate == s.duplicate
  {
    hide Places, Taken, RawBytes, Fresh, InsertAll, Compressed, ItemBytes, PreparedBytes, LimitHit, Config.ReadyByteCap;
    match step
    case Publish(w) => PublishPlaces(c, s, w);
    case TakeTasks(w) => TakePlaces(c, s, w);
    case Compress(w, items) => CompressPlaces(c, s, w, items);
    case PassReadyGate(w) => EmptyHandedPlaces(c, s, w, Taking);
    case Leave(w) => EmptyHandedPlaces(c, s, w, Done);
    case PushTask => PushPlaces(c, s);
    case PopReady => PopPlaces(c, s);
    case WriteOut => WritePlaces(c, s);
    case _ => OtherPlaces(c, s, step);
  }

  lemma OtherPlaces(c: Config, s: State, step: Step)
    requires Enabled(c, s, step) && !IsWorkerStep(step) && !step.PushTask? && !step.PopReady? && !step.WriteOut?
    ensures Places(Apply(c, s, step)) == Places(s) && Apply(c, s, step).duplicate == s.duplicate
  {
    hide Places, LimitHit, Config.Raw;
    var s' := Apply(c, s, step);
    if IsProducerStep(step) {
      ProducerMovesNothing(c, s, step);
    } else {
      EmptyOrGot(c, s, step);
      WriterMovesNothing(c, s, step);
    }
    SameParts(s, s');
  }

  lemma ProducerMovesNothing(c: Config, s: State, step: Step)
    requires IsProducerStep(step) && !step.PushTask?
    ensures var s' := ApplyProducer(c, s, step);
            && s'.queue == s.queue && s'.workers == s.workers && s'.ready == s.ready && s'.writer == s.writer
            && s'.out == s.out && s'.duplicate == s.duplicate
  {
    hide Config.Raw;
  }

  lemma EmptyOrGot(c: Config, s: State, step: Step)
    requires Enabled(c, s, step) && !IsProducerStep(step) && !IsWorkerStep(step) && !step.PopReady? && !step.WriteOut?
    ensures InHand(s.writer) == multiset{} || (step.ReadTotal? && s.writer.Got?)
  {
    hide LimitHit, Compressed, MayPublish, Taken;
  }

  lemma WriterMovesNothing(c: Config, s: State, step: Step)
    requires !IsProducerStep(step) && !IsWorkerStep(step) && !step.PopReady? && !step.WriteOut?
    requires InHand(s.writer) == multiset{} || (step.ReadTotal? && s.writer.Got?)
    ensures var s' := ApplyWriter(c, s, step);
            && s'.queue == s.queue && s'.workers == s.workers && s'.ready == s.ready
            && InHand(s'.writer) == InHand(s.writer) && s'.out == s.out && s'.duplicate == s.duplicate
  {
    hide Config.Raw, LimitHit;
  }

  lemma SameHeld(s: State, s': State)
    requires s'.queue == s.queue && Held(s'.workers) == Held(s.workers) && s'.ready == s.ready
    requires s'.writer == s.writer && s'.out == s.out
    ensures Places(s') == Places(s)
  {
    hide Held, UpTo, InHand;
  }

  lemma SameParts(s: State, s': State)
    requires s'.queue == s.queue && s'.workers == s.workers && s'.ready == s.ready
    requires InHand(s'.writer) == InHand(s.writer) && s'.out == s.out
    ensures Places(s') == Places(s)
  {
    hide Held, UpTo, InHand;
  }

  // ---- Counters ----------------------------------------------------------------------------------

  lemma {:induction false} RawBytesAppend(c: Config, queue: seq<nat>, i: nat)
    ensures RawBytes(c, queue + [i]) == RawBytes(c, queue) + c.Raw(i)
    decreases |queue|
  {
    if queue != [] {
      assert (queue + [i])[1..] == queue[1..] + [i];
      RawBytesAppend(c, queue[1..], i);
    } else {
      assert [i][1..] == [];
      assert queue + [i] == [i];
    }
  }

  lemma {:induction false} RawBetweenShift(c: Config, lo: nat, hi: nat)
    requires lo < hi
    ensures RawBetween(c, lo, hi) == c.Raw(lo) + RawBetween(c, lo + 1, hi)
  {
    if lo + 1 < hi {
      RawBetweenShift(c, lo, hi - 1);
    }
  }

  lemma {:induction false} InsertAllBytes(ready: map<nat, Item>, items: seq<Item>)
    requires Fresh(ready, items)
    ensures ReadyBytes(InsertAll(ready, items)) == ReadyBytes(ready) + PreparedBytes(items)
    decreases |items|
  {
    hide Sum;
    if items != [] {
      var init, last := items[..|items| - 1], items[|items| - 1];
      InsertAllBytes(ready, init);
      InsertAllKnows(ready, init, last.index);
      AddReady(InsertAll(ready, init), last);
    }
  }

  lemma AddReady(ready: map<nat, Item>, item: Item)
    requires item.index !in ready
    ensures ReadyBytes(ready[item.index := item]) == ReadyBytes(ready) + item.prepared
  {
    hide Sum;
    var after := ready[item.index := item];
    assert after.Keys == ready.Keys + {item.index};
    SumAdd<nat>(ready.Keys, SizeIn(after), item.index);
    SumSame(ready.Keys, SizeIn(ready), SizeIn(after));
  }

  lemma RemoveReady(ready: map<nat, Item>, k: nat)
    requires k in ready
    ensures ReadyBytes(ready) == ReadyBytes(ready - {k}) + ready[k].prepared
    ensures ReadyBytes(ready - {k}) >= 0
  {
    hide Sum;
    var after := ready - {k};
    assert after.Keys == ready.Keys - {k};
    SumPick(ready.Keys, SizeIn(ready), k);
    SumSame(after.Keys, SizeIn(ready), SizeIn(after));
    SumNonNegative(after.Keys, SizeIn(after));
  }

  /** Every counter follows its sum; what a step subtracts was there to be subtracted. */
  lemma CountersStep(c: Config, s: State, step: Step)
    requires ProducerShape(c, s) && WriterShape(s) && Partition(s) && Counters(c, s) && Enabled(c, s, step)
    ensures Counters(c, Apply(c, s, step))
  {
    hide Held, UpTo, Taken, RawBytes, Fresh, InsertAll, Compressed, ItemBytes, PreparedBytes, LimitHit;
    hide Config.ReadyByteCap, Partition;
    hide ReadyBytes, Config.Raw;
    match step
    case Publish(w) =>
      PublishIsFresh(c, s, w);
      InsertAllBytes(s.ready, s.workers[w].items);
    case TakeTasks(w) => TakenSplits(c, w, s.queue);
    case PushTask => RawBytesAppend(c, s.queue, s.read - 1);
    case PopReady => RemoveReady(s.ready, s.next);
    case ReleaseBytes =>
      WrittenWasRead(s);
      RawBetweenShift(c, s.next, s.read);
    case ReadChunk => OutWasRead(s);
    case _ =>
  }

  /** The output never runs ahead of the producer. */
  lemma OutWasRead(s: State)
    requires Partition(s)
    ensures |s.out| <= Pushed(s) <= s.read
  {
    hide Held, UpTo, InHand;
    if |s.out| > Pushed(s) {
      PlaceOnce(s, Pushed(s));
      UpToOnce(|s.out|, Pushed(s));
    }
  }

  lemma WrittenWasRead(s: State)
    requires Partition(s) && WriterShape(s) && s.writer.Wrote?
    ensures s.next < s.read
  {
    hide Partition;
    OutWasRead(s);
  }
}
