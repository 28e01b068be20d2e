/** Index-or-queue coherence: whatever the backend does, every record the queue has let go
    of is in the index exactly as it should be. */
module Coherence {
  import opened Prelude
  import opened Records
  import opened EncryptedStore
  import opened StoreInvariant
  import opened Coordinator
  import AuditChain

  /** The index has exactly the record's projection if it is live, and nothing if deleted. */
  ghost predicate Mirrors(p: Primitives, w: World, id: string)
    requires Readable(p, w.t) && id in w.t.records
  {
    if w.t.records[id].deleted then id !in w.objects
    else id in w.objects && w.objects[id] == Project(p, RecordAt(p, w.t, id))
  }

  ghost predicate Coherent(p: Primitives, w: World) {
    && Healthy(p, w.t)
    && (forall id :: id in w.objects ==> id in w.t.records)
    && (forall id :: id in w.t.records && id !in w.t.queue ==> Mirrors(p, w, id))
  }

  datatype Command =
    | PutRecord(req: Request, at: Moment, env: Environment)
    | DeleteRecord(id: string, times: DeleteTimes, env: Environment)
    | Rebuild(queuedAt: int)
    | Sync(limit: int, unlocked: bool, faults: seq<Faults>)

  /** The transitions the coordinator's methods and `queue_full_weaviate_rebuild` make. */
  ghost predicate Next(p: Primitives, w: World, c: Command, w': World) {
    match c
    case PutRecord(req, at, env) => w' == PutWorld(p, w, req, at, env)
    case DeleteRecord(id, times, env) => w' == DeleteWorld(p, w, id, times, env)
    case Rebuild(queuedAt) => w' == World(AfterRebuild(w.t, queuedAt), w.objects)
    case Sync(limit, unlocked, faults) =>
      exists batch :: SyncedBy(p, w, limit, batch, unlocked, faults, w')
  }

  ghost predicate SyncedBy(p: Primitives, w: World, limit: int, batch: seq<string>, unlocked: bool,
      faults: seq<Faults>, w': World) {
    && IsPending(w.t.queue, limit, batch)
    && (forall id :: id in batch ==> id in w.t.queue)
    && |faults| == |batch|
    && w' == SyncBatch(p, w, Operations(w.t.queue, batch), unlocked, faults)
  }

  ghost predicate SameElsewhere(objects: Objects, objects': Objects, id: string) {
    forall other :: other != id ==>
      (other in objects' <==> other in objects) && (other in objects ==> objects'[other] == objects[other])
  }

  /** The tail of every coordinator call: while a record is queued the index may hold
      anything for it, and it leaves the queue only when the index mirrors it. */
  lemma SettleKeepsCoherent(p: Primitives, w: World, id: string, objects: Objects, ok: bool, f: Faults)
    requires Coherent(p, w) && id in w.t.queue
    requires SameElsewhere(w.objects, objects, id)
    requires ok ==> Mirrors(p, World(w.t, objects), id)
    ensures Coherent(p, World(Settle(w.t, id, ok, f), objects))
  {
    var w' := World(Settle(w.t, id, ok, f), objects);
    assert QueueAgrees(w'.t);
    QueueOnlyKeepsHealthy(p, w.t, w'.t);
    forall other | other in w'.t.records && other !in w'.t.queue
      ensures Mirrors(p, w', other)
    {
      if other != id {
        assert Mirrors(p, w, other);
      } else {
        assert Mirrors(p, World(w.t, objects), id);
      }
    }
  }

  /** Changing one record and queueing it leaves nothing promised about it. */
  lemma QueuedChangeKeepsCoherent(p: Primitives, w: World, t: Tables, id: string)
    requires Coherent(p, w) && Healthy(p, t)
    requires id in t.queue && t.records.Keys == w.t.records.Keys + {id}
    requires forall other :: other in w.t.records && other != id ==> t.records[other] == w.t.records[other]
    requires t.queue.Keys == w.t.queue.Keys + {id}
    ensures Coherent(p, World(t, w.objects))
  {
    forall other | other in t.records && other !in t.queue
      ensures Mirrors(p, World(t, w.objects), other)
    {
      assert Mirrors(p, w, other);
    }
  }

  /** However an upsert ends, only this record's object may change; success leaves exactly
      the projection. */
  lemma UpsertTouchesOnly(objects: Objects, projection: Projection, f: Faults)
    ensures var after := AfterUpsert(objects, projection, f);
      && SameElsewhere(objects, after, projection.recordId)
      && (UpsertSucceeds(objects, projection.recordId, f) ==>
            projection.recordId in after && after[projection.recordId] == projection)
  {
  }

  lemma PutStored(p: Primitives, w: World, req: Request, at: Moment)
    requires p.Sound() && Indexable(p, req)
    requires Coherent(p, w)
    ensures var id, t := IdOf(req, at), AfterPut(p, w.t, req, at);
      && Coherent(p, World(t, w.objects))
      && id in t.queue && Live(t, id)
      && RecordAt(p, t, id) == StoredAs(p, w.t, req, at)
  {
    PutKeepsHealthy(p, w.t, req, at);
    QueuedChangeKeepsCoherent(p, w, AfterPut(p, w.t, req, at), IdOf(req, at));
    RowDecodes(p, w.t, req, at);
  }

  /** Upserting a queued live record as `record`, however it ends; if it ends well and the
      entry is cleared, `record` must be what the row holds. */
  lemma UpsertKeepsCoherent(p: Primitives, w: World, id: string, record: StoredRecord, f: Faults)
    requires Coherent(p, w) && id in w.t.queue && Live(w.t, id) && record.recordId == id
    requires UpsertSucceeds(w.objects, id, f) && f.marks ==> record == RecordAt(p, w.t, id)
    ensures Coherent(p,
        World(Settle(w.t, id, UpsertSucceeds(w.objects, id, f), f), AfterUpsert(w.objects, Project(p, record), f)))
  {
    UpsertTouchesOnly(w.objects, Project(p, record), f);
    var ok := UpsertSucceeds(w.objects, id, f) && f.marks;
    SettleKeepsCoherent(p, w, id, AfterUpsert(w.objects, Project(p, record), f), ok, f);
  }

  lemma RemoveTouchesOnly(objects: Objects, id: string, outcome: Outcome)
    ensures SameElsewhere(objects, AfterRemove(objects, id, outcome), id)
    ensures outcome == Applied ==> id !in AfterRemove(objects, id, outcome)
  {
  }

  /** Removing the object of a queued deleted record, however it ends. */
  lemma RemoveKeepsCoherent(p: Primitives, w: World, id: string, f: Faults)
    requires Coherent(p, w) && id in w.t.queue && !Live(w.t, id)
    ensures Coherent(p, World(Settle(w.t, id, f.remove == Applied, f), AfterRemove(w.objects, id, f.remove)))
  {
    RemoveTouchesOnly(w.objects, id, f.remove);
    SettleKeepsCoherent(p, w, id, AfterRemove(w.objects, id, f.remove), f.remove == Applied, f);
  }

  /** The put reaches the index, succeeds there and takes its entry off the queue. */
  predicate PutSettles(w: World, req: Request, at: Moment, env: Environment) {
    env.unlocked && env.enabled && env.reach == Connected && UpsertSucceeds(w.objects, IdOf(req, at), env.f) &&
        env.f.marks
  }

  /** What a put must keep to: an indexable request, and one that fits its columns if the
      index is to be done with it at once, because the index is given the uncut record. */
  predicate PutTolerated(p: Primitives, w: World, req: Request, at: Moment, env: Environment) {
    env.unlocked ==> Indexable(p, req) && (PutSettles(w, req, at, env) ==> FitsColumns(req))
  }

  /** The index's part of a put whose store part left `stored`. */
  lemma ConnectedPutKeepsCoherent(p: Primitives, w: World, req: Request, at: Moment, f: Faults, stored: World)
    requires p.Sound() && Indexable(p, req) && stored == World(AfterPut(p, w.t, req, at), w.objects)
    requires UpsertSucceeds(w.objects, IdOf(req, at), f) && f.marks ==> FitsColumns(req)
    requires Coherent(p, stored) && IdOf(req, at) in stored.t.queue && Live(stored.t, IdOf(req, at))
    ensures var id, record := IdOf(req, at), PutReturns(p, w.t, req, at);
      Coherent(p, World(Settle(stored.t, id, UpsertSucceeds(w.objects, id, f), f),
                        AfterUpsert(w.objects, Project(p, record), f)))
  {
    RowDecodes(p, w.t, req, at);
    UpsertKeepsCoherent(p, stored, IdOf(req, at), PutReturns(p, w.t, req, at), f);
  }

  /** What the coordinator does after the store's part of a put. */
  lemma SettlingPutKeepsCoherent(p: Primitives, w: World, req: Request, at: Moment, env: Environment, stored: World)
    requires p.Sound() && PutTolerated(p, w, req, at, env) && env.unlocked
    requires stored == World(AfterPut(p, w.t, req, at), w.objects) && Coherent(p, stored)
    requires IdOf(req, at) in stored.t.queue && Live(stored.t, IdOf(req, at))
    ensures Coherent(p, PutWorld(p, w, req, at, env))
  {
    if env.enabled && env.reach == Connected {
      ConnectedPutKeepsCoherent(p, w, req, at, env.f, stored);
    } else {
      SettleKeepsCoherent(p, stored, IdOf(req, at), w.objects, false, env.f);
    }
  }

  lemma PutKeepsCoherent(p: Primitives, w: World, req: Request, at: Moment, env: Environment)
    requires p.Sound() && PutTolerated(p, w, req, at, env)
    requires Coherent(p, w)
    ensures Coherent(p, PutWorld(p, w, req, at, env))
  {
    if env.unlocked {
      PutStored(p, w, req, at);
      SettlingPutKeepsCoherent(p, w, req, at, env, World(AfterPut(p, w.t, req, at), w.objects));
    }
  }

  lemma PutWorldTables(p: Primitives, w: World, req: Request, at: Moment, env: Environment)
    requires env.unlocked
    ensures PutWorld(p, w, req, at, env).t == AfterPut(p, w.t, req, at).(queue := PutWorld(p, w, req, at, env).t.queue)
    ensures PutSettles(w, req, at, env) ==>
      var id, w' := IdOf(req, at), PutWorld(p, w, req, at, env);
      id !in w'.t.queue && id in w'.objects && w'.objects[id] == Project(p, PutReturns(p, w.t, req, at))
  {
    UpsertTouchesOnly(w.objects, Project(p, PutReturns(p, w.t, req, at)), env.f);
  }

  /** And nothing less will do. */
  lemma OnlyToleratedPuts(p: Primitives, w: World, req: Request, at: Moment, env: Environment)
    requires p.Sound() && p.Authentic() && env.unlocked
    requires Coherent(p, w) && Coherent(p, PutWorld(p, w, req, at, env))
    ensures PutTolerated(p, w, req, at, env)
  {
    var id, w', t := IdOf(req, at), PutWorld(p, w, req, at, env), AfterPut(p, w.t, req, at);
    PutWorldTables(p, w, req, at, env);
    assert QueueAgrees(t);
    QueueOnlyKeepsHealthy(p, w'.t, t);
    PutHealthyExactly(p, w.t, req, at);
    if PutSettles(w, req, at, env) {
      RowDecodes(p, w.t, req, at);
      assert id in w'.t.records && Mirrors(p, w', id);
      assert Project(p, StoredAs(p, w.t, req, at)) == Project(p, PutReturns(p, w.t, req, at));
    }
  }

  lemma DeleteFrame(p: Primitives, t: Tables, id: string, at: DeleteTimes)
    requires Live(t, id)
    ensures var t' := AfterDelete(p, t, id, at);
      && t'.records.Keys == t.records.Keys + {id} && t'.queue.Keys == t.queue.Keys + {id} && !Live(t', id)
      && forall other :: other in t.records && other != id ==> t'.records[other] == t.records[other]
  {
  }

  lemma DeleteStored(p: Primitives, w: World, id: string, at: DeleteTimes, t: Tables)
    requires p.Sound()
    requires Coherent(p, w) && Live(w.t, id) && t == AfterDelete(p, w.t, id, at)
    ensures Coherent(p, World(t, w.objects)) && id in t.queue && !Live(t, id)
  {
    DeleteKeepsHealthy(p, w.t, id, at);
    DeleteFrame(p, w.t, id, at);
    QueuedChangeKeepsCoherent(p, w, t, id);
  }

  lemma DeleteKeepsCoherent(p: Primitives, w: World, id: string, at: DeleteTimes, env: Environment)
    requires p.Sound()
    requires Coherent(p, w)
    ensures Coherent(p, DeleteWorld(p, w, id, at, env))
  {
    if env.unlocked && Live(w.t, id) {
      DeleteStored(p, w, id, at, AfterDelete(p, w.t, id, at));
      RemoveKeepsCoherent(p, World(AfterDelete(p, w.t, id, at), w.objects), id, env.f);
    }
  }

  /** Re-queueing only takes promises away. */
  lemma RebuildKeepsCoherent(p: Primitives, w: World, at: int)
    requires Coherent(p, w)
    ensures Coherent(p, World(AfterRebuild(w.t, at), w.objects))
  {
    var w' := World(AfterRebuild(w.t, at), w.objects);
    RebuildKeepsHealthy(p, w.t, at);
    forall id | id in w'.t.records && id !in w'.t.queue
      ensures Mirrors(p, w', id)
    {
      assert Mirrors(p, w, id);
    }
  }

  lemma SyncOneKeepsCoherent(p: Primitives, w: World, id: string, operation: Operation, unlocked: bool, f: Faults)
    requires Coherent(p, w)
    requires id in w.t.queue && w.t.queue[id].operation == operation
    ensures Coherent(p, SyncOne(p, w, id, operation, unlocked, f))
  {
    if operation == Delete {
      RemoveKeepsCoherent(p, w, id, f);
    } else {
      SettleKeepsCoherent(p, w, id, w.objects, false, f);
      UpsertKeepsCoherent(p, w, id, RecordAt(p, w.t, id), f);
    }
  }

  /** A turn of the loop changes no record and no other queue entry. */
  lemma SyncOneFrame(p: Primitives, w: World, id: string, operation: Operation, unlocked: bool, f: Faults)
    ensures var w' := SyncOne(p, w, id, operation, unlocked, f);
      && w'.t == w.t.(queue := w'.t.queue)
      && forall other :: other != id ==>
           (other in w'.t.queue <==> other in w.t.queue) &&
               (other in w.t.queue ==> w'.t.queue[other] == w.t.queue[other])
  {
  }

  lemma {:induction false} SyncBatchKeepsCoherent(p: Primitives, w: World, batch: seq<string>, unlocked: bool,
      f: seq<Faults>)
    requires Coherent(p, w)
    requires Distinct(batch) && (forall id :: id in batch ==> id in w.t.queue)
    requires |f| == |batch|
    ensures var w' := SyncBatch(p, w, Operations(w.t.queue, batch), unlocked, f);
      && Coherent(p, w')
      && w'.t == w.t.(queue := w'.t.queue)
      && forall other :: other !in batch ==>
           (other in w'.t.queue <==> other in w.t.queue) &&
               (other in w.t.queue ==> w'.t.queue[other] == w.t.queue[other])
  {
    if batch != [] {
      var n := |batch| - 1;
      var front := batch[..n];
      assert Operations(w.t.queue, batch)[..n] == Operations(w.t.queue, front);
      SyncBatchKeepsCoherent(p, w, front, unlocked, f[..n]);
      var mid := SyncBatch(p, w, Operations(w.t.queue, front), unlocked, f[..n]);
      assert batch[n] in batch && batch[n] !in front;
      SyncOneKeepsCoherent(p, mid, batch[n], w.t.queue[batch[n]].operation, unlocked, f[n]);
      SyncOneFrame(p, mid, batch[n], w.t.queue[batch[n]].operation, unlocked, f[n]);
      assert forall other :: other in front ==> other in batch;
    }
  }

  /** The exact condition on a command: that of a put, and none for the others. */
  predicate Tolerated(p: Primitives, w: World, c: Command) {
    c.PutRecord? ==> PutTolerated(p, w, c.req, c.at, c.env)
  }

  lemma StepKeepsCoherent(p: Primitives, w: World, c: Command, w': World)
    requires p.Sound() && Tolerated(p, w, c)
    requires Coherent(p, w) && Next(p, w, c, w')
    ensures Coherent(p, w')
  {
    match c {
      case PutRecord(req, at, env) => PutKeepsCoherent(p, w, req, at, env);
      case DeleteRecord(id, times, env) => DeleteKeepsCoherent(p, w, id, times, env);
      case Rebuild(queuedAt) => RebuildKeepsCoherent(p, w, queuedAt);
      case Sync(limit, unlocked, faults) =>
        var batch :| SyncedBy(p, w, limit, batch, unlocked, faults, w');
        PendingBatch(w.t.queue, limit, batch);
        SyncBatchKeepsCoherent(p, w, batch, unlocked, faults);
    }
  }

  const EMPTY := World(Tables(map[], {}, map[], []), map[])

  /** The states a series of commands passes through from an empty store. */
  ghost predicate Run(p: Primitives, commands: seq<Command>, states: seq<World>) {
    && |states| == |commands| + 1 && states[0] == EMPTY
    && forall i :: 0 <= i < |commands| ==> StepAt(p, commands, states, i)
  }

  ghost predicate StepAt(p: Primitives, commands: seq<Command>, states: seq<World>, i: int) {
    0 <= i < |commands| < |states| && Next(p, states[i], commands[i], states[i + 1])
  }

  lemma RunStep(p: Primitives, commands: seq<Command>, states: seq<World>, n: nat)
    requires Run(p, commands, states) && 0 < n <= |commands|
    ensures Next(p, states[n - 1], commands[n - 1], states[n])
  {
    assert StepAt(p, commands, states, n - 1);
  }

  /** Every state of the run up to the n-th is coherent. */
  ghost predicate CoherentUpTo(p: Primitives, states: seq<World>, n: nat) {
    n < |states| && forall i :: 0 <= i <= n ==> Coherent(p, states[i])
  }

  ghost predicate ToleratedUpTo(p: Primitives, commands: seq<Command>, states: seq<World>, n: nat) {
    n <= |commands| < |states| && forall i :: 0 <= i < n ==> Tolerated(p, states[i], commands[i])
  }

  /** Over every run of puts, deletes, rebuilds and syncs from an empty store, with the
      backend failing wherever it likes: all states are coherent if every put is tolerated. */
  lemma {:induction false} EveryRunIsCoherent(p: Primitives, commands: seq<Command>, states: seq<World>, n: nat)
    requires p.Sound()
    requires Run(p, commands, states) && ToleratedUpTo(p, commands, states, n)
    ensures CoherentUpTo(p, states, n)
  {
    if n > 0 {
      EveryRunIsCoherent(p, commands, states, n - 1);
      RunStep(p, commands, states, n);
      StepKeepsCoherent(p, states[n - 1], commands[n - 1], states[n]);
    }
  }

  /** And only then: the first put that is not tolerated breaks coherence. */
  lemma CoherentRunsExactly(p: Primitives, commands: seq<Command>, states: seq<World>)
    requires p.Sound() && p.Authentic()
    requires Run(p, commands, states)
    ensures CoherentUpTo(p, states, |commands|) <==> ToleratedUpTo(p, commands, states, |commands|)
  {
    if ToleratedUpTo(p, commands, states, |commands|) {
      EveryRunIsCoherent(p, commands, states, |commands|);
    }
    if CoherentUpTo(p, states, |commands|) {
      forall i | 0 <= i < |commands|
        ensures Tolerated(p, states[i], commands[i])
      {
        RunStep(p, commands, states, i + 1);
        StepTolerated(p, states[i], commands[i], states[i + 1]);
      }
    }
  }

  lemma StepTolerated(p: Primitives, w: World, c: Command, w': World)
    requires p.Sound() && p.Authentic()
    requires Coherent(p, w) && Next(p, w, c, w') && Coherent(p, w')
    ensures Tolerated(p, w, c)
  {
    if c.PutRecord? && c.env.unlocked {
      OnlyToleratedPuts(p, w, c.req, c.at, c.env);
    }
  }

  /** Requests that fit their columns are tolerated in every state. */
  lemma FittingIsTolerated(p: Primitives, w: World, c: Command)
    requires c.PutRecord? ==> FitsColumns(c.req)
    ensures Tolerated(p, w, c)
  {
    if c.PutRecord? {
      FittingIsIndexable(p, c.req);
    }
  }

  // ---- the audit chain of a run ----

  /** The event a command logs, if any. */
  function Logged(p: Primitives, w: World, c: Command): seq<Option<AuditClear>> {
    match c
    case PutRecord(req, at, env) => if env.unlocked then [PutLogged(p, req, at)] else []
    case DeleteRecord(id, times, env) => if env.unlocked && Live(w.t, id) then [DeleteLogged(id, times)] else []
    case _ => []
  }

  function Log(p: Primitives, commands: seq<Command>, states: seq<World>, n: nat): seq<Option<AuditClear>>
    requires n <= |commands| < |states|
  {
    if n == 0 then [] else Log(p, commands, states, n - 1) + Logged(p, states[n - 1], commands[n - 1])
  }

  lemma {:induction false} SyncBatchAudit(p: Primitives, w: World, batch: seq<(string, Operation)>, unlocked: bool,
      f: seq<Faults>)
    requires |f| == |batch|
    ensures SyncBatch(p, w, batch, unlocked, f).t.audit == w.t.audit
  {
    if batch != [] {
      var n := |batch| - 1;
      SyncBatchAudit(p, w, batch[..n], unlocked, f[..n]);
      SyncOneFrame(p, SyncBatch(p, w, batch[..n], unlocked, f[..n]), batch[n].0, batch[n].1, unlocked, f[n]);
    }
  }

  lemma PutStepAudits(p: Primitives, w: World, req: Request, at: Moment, env: Environment, w': World)
    requires p.Sound() && AuditChain.ValidChain(p, w.t.audit) && w' == PutWorld(p, w, req, at, env)
    ensures AuditChain.ValidChain(p, w'.t.audit)
    ensures AuditChain.Events(p, w'.t.audit) == AuditChain.Events(p, w.t.audit) + Logged(p, w, PutRecord(req, at, env))
  {
    if env.unlocked {
      PutAudited(p, w.t, req, at);
      PutWorldTables(p, w, req, at, env);
    }
  }

  lemma DeleteStepAudits(p: Primitives, w: World, id: string, times: DeleteTimes, env: Environment, w': World)
    requires p.Sound() && AuditChain.ValidChain(p, w.t.audit) && w' == DeleteWorld(p, w, id, times, env)
    ensures AuditChain.ValidChain(p, w'.t.audit)
    ensures AuditChain.Events(p, w'.t.audit) ==
        AuditChain.Events(p, w.t.audit) + Logged(p, w, DeleteRecord(id, times, env))
  {
    if env.unlocked && Live(w.t, id) {
      DeleteAudited(p, w.t, id, times);
    }
  }

  /** The chain verifies and tells exactly the events of `log`. */
  ghost predicate Tells(p: Primitives, t: Tables, log: seq<Option<AuditClear>>) {
    AuditChain.ValidChain(p, t.audit) && AuditChain.Events(p, t.audit) == log
  }

  lemma StepAudits(p: Primitives, w: World, c: Command, w': World, log: seq<Option<AuditClear>>)
    requires p.Sound() && Next(p, w, c, w') && Tells(p, w.t, log)
    ensures Tells(p, w'.t, log + Logged(p, w, c))
  {
    match c {
      case PutRecord(req, at, env) => PutStepAudits(p, w, req, at, env, w');
      case DeleteRecord(id, times, env) => DeleteStepAudits(p, w, id, times, env, w');
      case Rebuild(_) => assert w'.t.audit == w.t.audit;
      case Sync(limit, unlocked, faults) =>
        var batch :| SyncedBy(p, w, limit, batch, unlocked, faults, w');
        SyncBatchAudit(p, w, Operations(w.t.queue, batch), unlocked, faults);
    }
  }

  lemma RunAuditsNext(p: Primitives, commands: seq<Command>, states: seq<World>, n: nat)
    requires p.Sound() && Run(p, commands, states) && 0 < n <= |commands|
    requires Tells(p, states[n - 1].t, Log(p, commands, states, n - 1))
    ensures Tells(p, states[n].t, Log(p, commands, states, n))
  {
    RunStep(p, commands, states, n);
    StepAudits(p, states[n - 1], commands[n - 1], states[n], Log(p, commands, states, n - 1));
  }

  /** Over every run, whatever is put, the audit chain verifies and tells exactly the puts and
      deletes that happened, in order. */
  lemma {:induction false} EveryRunAudits(p: Primitives, commands: seq<Command>, states: seq<World>, n: nat)
    requires p.Sound() && Run(p, commands, states) && n <= |commands|
    ensures Tells(p, states[n].t, Log(p, commands, states, n))
  {
    if n == 0 {
      assert Log(p, commands, states, 0) == [];
    } else {
      EveryRunAudits(p, commands, states, n - 1);
      RunAuditsNext(p, commands, states, n);
    }
  }
}
