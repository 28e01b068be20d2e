/** Rebuilding a lost index: re-queue every live record, then sync until the queue is empty. */
module Drain {
  import opened Prelude
  import opened Records
  import opened EncryptedStore
  import opened StoreInvariant
  import opened Coordinator
  import opened Coherence

  function Clean(n: nat): seq<Faults> { seq(n, i => NO_FAULTS) }

  /** One sync during which nothing fails. */
  ghost predicate CleanSync(p: Primitives, w: World, limit: int, w': World) {
    exists batch :: CleanSyncOf(p, w, limit, batch, w')
  }

  ghost predicate CleanSyncOf(p: Primitives, w: World, limit: int, batch: seq<string>, w': World) {
    SyncedBy(p, w, limit, batch, true, Clean(|batch|), w')
  }

  /** Exactly the projections of the live records. */
  ghost function Projections(p: Primitives, t: Tables): Objects
    requires Readable(p, t)
  {
    map id | id in LiveIds(t) :: Project(p, RecordAt(p, t, id))
  }

  lemma CleanTurnSyncs(p: Primitives, w: World, id: string)
    requires Coherent(p, w) && id in w.t.queue
    ensures SyncOne(p, w, id, w.t.queue[id].operation, true, NO_FAULTS).t == AfterSynced(w.t, id)
  {
  }

  lemma {:induction false} CleanBatchDrains(p: Primitives, w: World, batch: seq<string>)
    requires Coherent(p, w)
    requires Distinct(batch) && (forall id :: id in batch ==> id in w.t.queue)
    ensures SyncBatch(p, w, Operations(w.t.queue, batch), true, Clean(|batch|)).t
         == w.t.(queue := w.t.queue - Elements(batch))
  {
    if batch == [] {
      assert w.t.queue - Elements(batch) == w.t.queue;
    } else {
      var n := |batch| - 1;
      var front := batch[..n];
      assert Operations(w.t.queue, batch)[..n] == Operations(w.t.queue, front);
      assert Clean(|batch|)[..n] == Clean(n);
      assert forall id :: id in front ==> id in batch;
      CleanBatchDrains(p, w, front);
      SyncBatchKeepsCoherent(p, w, front, true, Clean(n));
      var mid := SyncBatch(p, w, Operations(w.t.queue, front), true, Clean(n));
      LastRemoved(w.t.queue, batch);
      CleanTurnSyncs(p, mid, batch[n]);
    }
  }

  lemma LastRemoved(queue: map<string, QueueEntry>, batch: seq<string>)
    requires batch != [] && Distinct(batch) && (forall id :: id in batch ==> id in queue)
    ensures var n := |batch| - 1;
      var rest := queue - Elements(batch[..n]);
      && batch[n] in rest && rest[batch[n]] == queue[batch[n]]
      && rest - {batch[n]} == queue - Elements(batch)
  {
    var n := |batch| - 1;
    assert batch[n] in batch && batch[n] !in batch[..n];
    assert batch == batch[..n] + [batch[n]];
    assert Elements(batch) == Elements(batch[..n]) + {batch[n]};
  }

  /** A failure-free sync takes min(limit, size) entries off the queue and changes no record. */
  lemma CleanSyncShrinks(p: Primitives, w: World, limit: int, w': World)
    requires Coherent(p, w) && CleanSync(p, w, limit, w')
    ensures Coherent(p, w')
    ensures w'.t == w.t.(queue := w'.t.queue)
    ensures |w'.t.queue| == |w.t.queue| - Min(|w.t.queue|, Between(1, 1000, limit))
  {
    var batch :| CleanSyncOf(p, w, limit, batch, w');
    PendingBatch(w.t.queue, limit, batch);
    SyncBatchKeepsCoherent(p, w, batch, true, Clean(|batch|));
    CleanBatchDrains(p, w, batch);
    DistinctSize(batch);
    assert w'.t.queue.Keys == w.t.queue.Keys - Elements(batch);
    assert Elements(batch) <= w.t.queue.Keys;
  }

  lemma DrainedAt(p: Primitives, w: World, id: string)
    requires Coherent(p, w) && w.t.queue == map[]
    ensures id in w.objects <==> id in LiveIds(w.t)
    ensures id in w.objects ==> w.objects[id] == Project(p, RecordAt(p, w.t, id))
  {
    if id in w.t.records {
      assert Mirrors(p, w, id);
    }
  }

  lemma SameObjects(a: Objects, b: Objects)
    requires forall id :: id in a <==> id in b
    requires forall id :: id in a && id in b ==> a[id] == b[id]
    ensures a == b
  {
  }

  /** With the queue empty, coherence says what the index is. */
  lemma DrainedIsProjected(p: Primitives, w: World)
    requires Coherent(p, w) && w.t.queue == map[]
    ensures w.objects == Projections(p, w.t)
  {
    var projections := Projections(p, w.t);
    forall id
      ensures id in w.objects <==> id in projections
      ensures id in w.objects ==> w.objects[id] == projections[id]
    {
      DrainedAt(p, w, id);
    }
    SameObjects(w.objects, projections);
  }

  /** States one failure-free sync apart, the last one last. */
  ghost predicate Drains(p: Primitives, states: seq<World>, limit: int) {
    states != [] &&
    var n := |states| - 1;
    n == 0 || (Drains(p, states[..n], limit) && CleanSync(p, states[n - 1], limit, states[n]))
  }

  /** Queue size after n failure-free syncs of at most b entries each. */
  function Remaining(size: nat, b: nat, n: nat): nat {
    if n == 0 then size else Remaining(size, b, n - 1) - Min(Remaining(size, b, n - 1), b)
  }

  lemma {:induction false} RemainingAfter(size: nat, b: nat, n: nat)
    ensures Remaining(size, b, n) == Max(0, size - n * b)
  {
    if n > 0 {
      RemainingAfter(size, b, n - 1);
      assert n * b == (n - 1) * b + b;
    }
  }

  /** The state `n` clean syncs after `start`. */
  ghost predicate After(p: Primitives, start: World, limit: int, n: nat, w: World) {
    && Coherent(p, w)
    && w.t == start.t.(queue := w.t.queue)
    && |w.t.queue| == Remaining(|start.t.queue|, Between(1, 1000, limit), n)
  }

  lemma OneMoreSync(p: Primitives, start: World, limit: int, n: nat, w: World, w': World)
    requires n > 0 && After(p, start, limit, n - 1, w) && CleanSync(p, w, limit, w')
    ensures After(p, start, limit, n, w')
  {
    CleanSyncShrinks(p, w, limit, w');
  }

  lemma {:induction false} QueueAfter(p: Primitives, states: seq<World>, limit: int, start: World, n: nat, w: World)
    requires Drains(p, states, limit) && n == |states| - 1
    requires start == states[0] && w == states[n] && Coherent(p, start)
    ensures After(p, start, limit, n, w)
  {
    if n > 0 {
      QueueAfter(p, states[..n], limit, start, n - 1, states[n - 1]);
      OneMoreSync(p, start, limit, n, states[n - 1], w);
    }
  }

  lemma RebuiltIsCoherent(p: Primitives, t: Tables, queuedAt: int)
    requires Healthy(p, t)
    ensures Coherent(p, World(AfterRebuild(t, queuedAt), map[]))
  {
    RebuildKeepsHealthy(p, t, queuedAt);
  }

  lemma SameRecordsSameProjections(p: Primitives, t: Tables, t': Tables)
    requires Readable(p, t) && t'.records == t.records
    ensures Readable(p, t') && Projections(p, t') == Projections(p, t)
  {
    assert LiveIds(t') == LiveIds(t);
  }

  lemma Exhausted(size: nat, b: nat, n: nat)
    requires n * b >= size
    ensures Remaining(size, b, n) == 0
  {
    RemainingAfter(size, b, n);
  }

  lemma EmptiedIndex(p: Primitives, t: Tables, w: World)
    requires Healthy(p, t) && Coherent(p, w)
    requires w.t == t.(queue := w.t.queue) && |w.t.queue| == 0
    ensures w == World(t.(queue := map[]), Projections(p, t))
  {
    assert w.t.queue == map[];
    DrainedIsProjected(p, w);
    SameRecordsSameProjections(p, t, w.t);
  }

  lemma DrainEmpties(p: Primitives, t: Tables, limit: int, states: seq<World>, start: World, w: World)
    requires Healthy(p, t)
    requires Drains(p, states, limit) && start == states[0] && w == states[|states| - 1]
    requires Coherent(p, start) && start.t == t.(queue := start.t.queue)
    requires Remaining(|start.t.queue|, Between(1, 1000, limit), |states| - 1) == 0
    ensures w == World(t.(queue := map[]), Projections(p, t))
  {
    QueueAfter(p, states, limit, start, |states| - 1, w);
    EmptiedIndex(p, t, w);
  }

  /** Every projection can be regenerated: with nothing left in the index, a rebuild and
      enough failure-free syncs to cover the queue empty it and leave exactly the live
      records' projections; no record is touched. */
  lemma RebuildAndDrain(p: Primitives, t: Tables, queuedAt: int, limit: int, states: seq<World>, syncs: nat, batch: nat)
    requires Healthy(p, t)
    requires Drains(p, states, limit) && states[0] == World(AfterRebuild(t, queuedAt), map[])
    requires syncs == |states| - 1 && batch == Between(1, 1000, limit)
    requires syncs * batch >= |states[0].t.queue|
    ensures states[syncs] == World(t.(queue := map[]), Projections(p, t))
  {
    Exhausted(|states[0].t.queue|, batch, syncs);
    RebuiltIsCoherent(p, t, queuedAt);
    DrainEmpties(p, t, limit, states, states[0], states[syncs]);
  }

  lemma CleanPrefix(b: nat, n: nat)
    requires n <= b
    ensures Clean(b)[..n] == Clean(n)
  {
  }

  /** The number of syncs of at most b entries that `size` entries need. */
  predicate Needs(size: nat, b: nat, syncs: nat) {
    syncs * b >= size && (syncs > 0 ==> (syncs - 1) * b < size)
  }

  lemma EnoughSyncs(size: nat, b: nat, syncs: nat)
    requires Remaining(size, b, syncs) == 0
    requires syncs > 0 ==> Remaining(size, b, syncs - 1) > 0
    ensures Needs(size, b, syncs)
  {
    RemainingAfter(size, b, syncs);
    if syncs > 0 {
      RemainingAfter(size, b, syncs - 1);
    }
  }

  lemma SyncedCleanly(p: Primitives, w: World, limit: int, batch: seq<string>, b: nat, w': World)
    requires IsPending(w.t.queue, limit, batch) && |batch| <= b && forall id :: id in batch ==> id in w.t.queue
    requires w' == SyncBatch(p, w, Operations(w.t.queue, batch), true, Clean(b)[..|batch|])
    ensures CleanSync(p, w, limit, w')
  {
    CleanPrefix(b, |batch|);
    assert CleanSyncOf(p, w, limit, batch, w');
  }

  /** One sync of the recovery. */
  method CleanRound(c: StorageCoordinator, limit: int, b: nat)
    requires c.store.p == c.p && b == Between(1, 1000, limit)
    modifies c.store`queue, c.index
    ensures CleanSync(c.p, old(c.State()), limit, c.State())
  {
    ghost var w := c.State();
    ghost var batch;
    var r;
    r, batch := c.Sync(limit, true, Connected, Clean(b));
    SyncedCleanly(c.p, w, limit, batch, b, c.State());
  }

  /** Clean syncs until the queue is empty. */
  method Exhaust(c: StorageCoordinator, limit: int, b: nat) returns (syncs: nat)
    requires c.store.p == c.p && b == Between(1, 1000, limit) && Coherent(c.p, c.State())
    modifies c.store`queue, c.index
    ensures After(c.p, old(c.State()), limit, syncs, c.State()) && |c.store.queue| == 0
    ensures Needs(|old(c.store.queue)|, b, syncs)
  {
    ghost var start, size := c.State(), |c.store.queue|;
    ghost var left := size;
    syncs := 0;
    while |c.store.queue| > 0
      invariant After(c.p, start, limit, syncs, c.State())
      invariant left == |c.store.queue| == Remaining(size, b, syncs)
      invariant syncs > 0 ==> Remaining(size, b, syncs - 1) > 0
      decreases left
    {
      ghost var w := c.State();
      CleanRound(c, limit, b);
      OneMoreSync(c.p, start, limit, syncs + 1, w, c.State());
      syncs, left := syncs + 1, |c.store.queue|;
    }
    EnoughSyncs(size, b, syncs);
  }

  /** The recovery itself: an index that lost everything is rebuilt by as many clean syncs as
      the queue needs at `limit` a time, and no more. */
  method Recover(c: StorageCoordinator, queuedAt: int, limit: int) returns (syncs: nat)
    requires c.store.p == c.p && Healthy(c.p, c.store.State()) && c.index.objects == map[]
    modifies c.store`queue, c.index
    ensures c.State() == World(old(c.store.State()).(queue := map[]), Projections(c.p, old(c.store.State())))
    ensures Needs(|AfterRebuild(old(c.store.State()), queuedAt).queue|, Between(1, 1000, limit), syncs)
  {
    ghost var t := c.store.State();
    var b := Between(1, 1000, limit);
    var queued := c.store.QueueRebuild(REBUILD_CONFIRMATION, true, queuedAt);
    RebuiltIsCoherent(c.p, t, queuedAt);
    syncs := Exhaust(c, limit, b);
    EmptiedIndex(c.p, t, c.State());
  }
}
