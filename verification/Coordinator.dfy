/** The disposable search index and the coordinator that feeds it. */
module Coordinator {
  import opened Prelude
  import opened Records
  import opened EncryptedStore

  type Objects = map<string, Projection>

  /** How one backend call ends: it may also raise after having taken effect. */
  datatype Outcome = Applied | Rejected | AppliedThenRaised

  /** Everything a backend decides during one upsert or delete and its queue update. */
  datatype Faults = Faults(remove: Outcome, insert: Outcome, marks: bool)

  const NO_FAULTS := Faults(Applied, Applied, true)

  /** Where `initialize_weaviate` leaves the client. */
  datatype Reach = Connected | Absent | Raises

  function AfterRemove(objects: Objects, id: string, outcome: Outcome): Objects {
    if outcome == Rejected then objects else objects - {id}
  }

  /** `upsert`: a failed delete is ignored, and inserting over a surviving object raises. */
  function AfterUpsert(objects: Objects, projection: Projection, f: Faults): Objects {
    var removed := AfterRemove(objects, projection.recordId, f.remove);
    if projection.recordId in removed || f.insert == Rejected then removed
    else removed[projection.recordId := projection]
  }

  predicate UpsertSucceeds(objects: Objects, id: string, f: Faults) {
    id !in AfterRemove(objects, id, f.remove) && f.insert == Applied
  }

  class SearchIndex {
    var objects: Objects

    constructor ()
      ensures objects == map[]
    {
      objects := map[];
    }

    method Remove(id: string, outcome: Outcome) returns (ok: bool)
      modifies this
      ensures objects == AfterRemove(old(objects), id, outcome)
      ensures ok <==> outcome == Applied
    {
      if outcome != Rejected {
        objects := objects - {id};
      }
      ok := outcome == Applied;
    }

    method Insert(projection: Projection, outcome: Outcome) returns (ok: bool)
      modifies this
      ensures objects == if projection.recordId in old(objects) || outcome == Rejected then old(objects)
                         else old(objects)[projection.recordId := projection]
      ensures ok <==> projection.recordId !in old(objects) && outcome == Applied
    {
      if projection.recordId in objects {
        return false;
      }
      if outcome != Rejected {
        objects := objects[projection.recordId := projection];
      }
      ok := outcome == Applied;
    }

    method Upsert(p: Primitives, record: StoredRecord, f: Faults) returns (ok: bool)
      modifies this
      ensures objects == AfterUpsert(old(objects), Project(p, record), f)
      ensures ok <==> UpsertSucceeds(old(objects), record.recordId, f)
    {
      var _ := Remove(record.recordId, f.remove);
      ok := Insert(Project(p, record), f.insert);
    }
  }

  /** The store's tables beside the index's objects. */
  datatype World = World(t: Tables, objects: Objects)

  /** The tail of every coordinator call: a success leaves the queue, anything raised is counted. */
  function Settle(t: Tables, id: string, ok: bool, f: Faults): Tables {
    if ok && f.marks then AfterSynced(t, id) else AfterSyncFailed(t, id)
  }

  datatype Environment = Environment(unlocked: bool, enabled: bool, reach: Reach, f: Faults)

  function PutWorld(p: Primitives, w: World, req: Request, at: Moment, env: Environment): World {
    if !env.unlocked then w
    else
      var t, record := AfterPut(p, w.t, req, at), PutReturns(p, w.t, req, at);
      if !env.enabled || env.reach == Absent then World(t, w.objects)
      else if env.reach == Raises then World(AfterSyncFailed(t, record.recordId), w.objects)
      else World(Settle(t, record.recordId, UpsertSucceeds(w.objects, record.recordId, env.f), env.f),
                 AfterUpsert(w.objects, Project(p, record), env.f))
  }

  function DeleteWorld(p: Primitives, w: World, id: string, at: DeleteTimes, env: Environment): World {
    if !env.unlocked then w
    else
      var t := AfterDelete(p, w.t, id, at);
      if !Live(w.t, id) || env.reach != Connected then World(t, w.objects)
      else World(Settle(t, id, env.f.remove == Applied, env.f), AfterRemove(w.objects, id, env.f.remove))
  }

  /** One turn of the sync loop. */
  function SyncOne(p: Primitives, w: World, id: string, operation: Operation, unlocked: bool, f: Faults): World {
    if operation == Delete then
      World(Settle(w.t, id, f.remove == Applied, f), AfterRemove(w.objects, id, f.remove))
    else match Fetch(p, w.t, unlocked, id)
      case Err => World(AfterSyncFailed(w.t, id), w.objects)
      case Ok(None) => World(Settle(w.t, id, true, f), w.objects)
      case Ok(Some(record)) =>
        World(Settle(w.t, id, UpsertSucceeds(w.objects, id, f), f), AfterUpsert(w.objects, Project(p, record), f))
  }

  /** The whole loop over a batch whose operations were read before it started. */
  function SyncBatch(p: Primitives, w: World, batch: seq<(string, Operation)>, unlocked: bool, f: seq<Faults>): World
    requires |f| == |batch|
  {
    if batch == [] then w
    else
      var n := |batch| - 1;
      SyncOne(p, SyncBatch(p, w, batch[..n], unlocked, f[..n]), batch[n].0, batch[n].1, unlocked, f[n])
  }

  function Operations(queue: map<string, QueueEntry>, batch: seq<string>): seq<(string, Operation)>
    requires forall id :: id in batch ==> id in queue
  {
    seq(|batch|, i requires 0 <= i < |batch| => (batch[i], queue[batch[i]].operation))
  }

  /** Whether a turn ends with the item marked as synced. */
  function Fate(p: Primitives, w: World, id: string, operation: Operation, unlocked: bool, f: Faults): bool {
    f.marks &&
    if operation == Delete then f.remove == Applied
    else match Fetch(p, w.t, unlocked, id)
      case Err => false
      case Ok(None) => true
      case Ok(Some(_)) => UpsertSucceeds(w.objects, id, f)
  }

  /** The `synced` count the report shows. */
  function Synced(p: Primitives, w: World, batch: seq<(string, Operation)>, unlocked: bool, f: seq<Faults>): nat
    requires |f| == |batch|
  {
    if batch == [] then 0
    else
      var n := |batch| - 1;
      var w' := SyncBatch(p, w, batch[..n], unlocked, f[..n]);
      Synced(p, w, batch[..n], unlocked, f[..n])
      + if Fate(p, w', batch[n].0, batch[n].1, unlocked, f[n]) then 1 else 0
  }

  // ---- what a call leaves, told without the functions above ----

  /** The queue and the objects are as they were, but for one record. */
  ghost predicate OthersStay(w: World, w': World, id: string) {
    forall other :: other != id ==>
      && (other in w'.t.queue <==> other in w.t.queue)
      && (other in w.t.queue ==> w'.t.queue[other] == w.t.queue[other])
      && (other in w'.objects <==> other in w.objects)
      && (other in w.objects ==> w'.objects[other] == w.objects[other])
  }

  predicate Queued(w: World, id: string, entry: QueueEntry) { id in w.t.queue && w.t.queue[id] == entry }

  predicate Shows(objects: Objects, id: string, projection: Projection) {
    id in objects && objects[id] == projection
  }

  predicate SameObject(objects: Objects, objects': Objects, id: string) {
    (id in objects' <==> id in objects) && (id in objects ==> objects'[id] == objects[id])
  }

  /** The index's delete took effect or did not. */
  predicate Removed(objects: Objects, objects': Objects, id: string, outcome: Outcome) {
    if outcome == Rejected then SameObject(objects, objects', id) else id !in objects'
  }

  /** No object is in the way of an insert: there was none, or the delete before it took effect. */
  predicate Cleared(objects: Objects, id: string, f: Faults) { id !in objects || f.remove != Rejected }

  /** A delete and an insert: an object that survives the delete stays and refuses the insert. */
  predicate Replaced(objects: Objects, objects': Objects, projection: Projection, f: Faults) {
    var id := projection.recordId;
    if !Cleared(objects, id, f) then SameObject(objects, objects', id)
    else if f.insert == Rejected then id !in objects'
    else Shows(objects', id, projection)
  }

  /** A delete of a live record leaves neither entry nor object when the index did its part and
      was told so; otherwise the delete is queued, as tried once if it was. */
  ghost predicate DeleteSettles(w: World, w': World, id: string, queuedAt: int, env: Environment) {
    && OthersStay(w, w', id) && id in w'.t.records && w'.t.records[id].deleted
    && if env.reach != Connected then
         Queued(w', id, QueueEntry(Delete, 0, false, queuedAt)) && w'.objects == w.objects
       else
         && Removed(w.objects, w'.objects, id, env.f.remove)
         && if env.f.remove == Applied && env.f.marks then id !in w'.t.queue
            else Queued(w', id, QueueEntry(Delete, 1, true, queuedAt))
  }

  /** A put leaves the record's projection and no entry when the index did its part and was told
      so; otherwise the upsert is queued, as tried once if it was. */
  ghost predicate PutSettlesAs(w: World, w': World, projection: Projection, queuedAt: int, env: Environment) {
    var id := projection.recordId;
    && OthersStay(w, w', id) && id in w'.t.records && !w'.t.records[id].deleted
    && if !env.enabled || env.reach == Absent then
         Queued(w', id, QueueEntry(Upsert, 0, false, queuedAt)) && w'.objects == w.objects
       else if env.reach == Raises then
         Queued(w', id, QueueEntry(Upsert, 1, true, queuedAt)) && w'.objects == w.objects
       else
         && Replaced(w.objects, w'.objects, projection, env.f)
         && if Cleared(w.objects, id, env.f) && env.f.insert == Applied && env.f.marks then id !in w'.t.queue
            else Queued(w', id, QueueEntry(Upsert, 1, true, queuedAt))
  }

  /** An item of a sync leaves the queue when it is synced and counts one more attempt otherwise;
      no other table changes. */
  ghost predicate ItemSettles(w: World, w': World, id: string, synced: bool) {
    && OthersStay(w, w', id) && w'.t == w.t.(queue := w'.t.queue)
    && if synced || id !in w.t.queue then id !in w'.t.queue
       else Queued(w', id, w.t.queue[id].(attempts := w.t.queue[id].attempts + 1, failed := true))
  }

  /** What a sync does to the index for one item, and when it counts as synced. */
  predicate ItemReaches(p: Primitives, w: World, w': World, id: string, operation: Operation,
      found: Result<Option<StoredRecord>>, f: Faults, synced: bool) {
    if operation == Delete then
      Removed(w.objects, w'.objects, id, f.remove) && synced == (f.remove == Applied && f.marks)
    else if found.Err? then w'.objects == w.objects && !synced
    else if found.value.None? then w'.objects == w.objects && synced == f.marks
    else
      && Replaced(w.objects, w'.objects, Project(p, found.value.value), f)
      && synced == (Cleared(w.objects, id, f) && f.insert == Applied && f.marks)
  }

  lemma UpsertReplaces(objects: Objects, projection: Projection, f: Faults)
    ensures Replaced(objects, AfterUpsert(objects, projection, f), projection, f)
    ensures UpsertSucceeds(objects, projection.recordId, f)
       <==> Cleared(objects, projection.recordId, f) && f.insert == Applied
    ensures forall other :: other != projection.recordId ==>
      SameObject(objects, AfterUpsert(objects, projection, f), other)
  {
  }

  /** What the index's part of a put makes of the tables the store's part left. */
  lemma PutReaches(w: World, t: Tables, projection: Projection, queuedAt: int, env: Environment, w': World)
    requires OthersStay(w, World(t, w.objects), projection.recordId)
    requires projection.recordId in t.records && !t.records[projection.recordId].deleted
    requires Queued(World(t, w.objects), projection.recordId, QueueEntry(Upsert, 0, false, queuedAt))
    requires env.enabled && env.reach == Connected
    requires w' == World(Settle(t, projection.recordId, UpsertSucceeds(w.objects, projection.recordId, env.f), env.f),
                         AfterUpsert(w.objects, projection, env.f))
    ensures PutSettlesAs(w, w', projection, queuedAt, env)
  {
    UpsertReplaces(w.objects, projection, env.f);
  }

  lemma PutOutcome(p: Primitives, w: World, req: Request, at: Moment, env: Environment)
    requires env.unlocked
    ensures PutSettlesAs(w, PutWorld(p, w, req, at, env), Project(p, PutReturns(p, w.t, req, at)), at.now, env)
  {
    var projection := Project(p, PutReturns(p, w.t, req, at));
    var t, w' := AfterPut(p, w.t, req, at), PutWorld(p, w, req, at, env);
    assert Queued(World(t, w.objects), projection.recordId, QueueEntry(Upsert, 0, false, at.now));
    if env.enabled && env.reach == Connected {
      PutReaches(w, t, projection, at.now, env, w');
    }
  }

  lemma DeleteOutcome(p: Primitives, w: World, id: string, at: DeleteTimes, env: Environment)
    requires env.unlocked && Live(w.t, id)
    ensures DeleteSettles(w, DeleteWorld(p, w, id, at, env), id, at.queue, env)
  {
    var stored := World(AfterDelete(p, w.t, id, at), w.objects);
    assert Queued(stored, id, QueueEntry(Delete, 0, false, at.queue));
  }

  lemma ItemOutcome(p: Primitives, w: World, id: string, operation: Operation, unlocked: bool, f: Faults)
    ensures var w', synced := SyncOne(p, w, id, operation, unlocked, f), Fate(p, w, id, operation, unlocked, f);
      ItemSettles(w, w', id, synced) && ItemReaches(p, w, w', id, operation, Fetch(p, w.t, unlocked, id), f, synced)
  {
    match Fetch(p, w.t, unlocked, id)
    case Ok(Some(record)) => UpsertReplaces(w.objects, Project(p, record), f);
    case _ =>
  }

  class StorageCoordinator {
    const p: Primitives
    const store: Store
    const index: SearchIndex

    function State(): World
      reads store, index
    {
      World(store.State(), index.objects)
    }

    constructor (p: Primitives)
      ensures this.p == p && store.p == p
      ensures fresh(store) && fresh(index)
      ensures State() == World(Tables(map[], {}, map[], []), map[])
    {
      this.p := p;
      store := new Store(p);
      index := new SearchIndex();
    }

    method Put(req: Request, at: Moment, env: Environment) returns (r: Result<StoredRecord>)
      requires store.p == p
      modifies store, index
      ensures State() == PutWorld(p, old(State()), req, at, env)
      ensures r == if env.unlocked then Ok(PutReturns(p, old(State()).t, req, at)) else Err
      ensures r.Err? ==> State() == old(State())
      ensures r.Ok? ==> PutSettlesAs(old(State()), State(), Project(p, r.value), at.now, env)
    {
      if env.unlocked {
        PutOutcome(p, State(), req, at, env);
      }
      r := store.Put(env.unlocked, req, at);
      if r.Err? || !env.enabled || env.reach == Absent {
        return;
      }
      var id := r.value.recordId;
      if env.reach == Raises {
        store.MarkSyncFailed(id);
        return;
      }
      var ok := index.Upsert(p, r.value, env.f);
      Finish(id, ok, env.f);
    }

    method Finish(id: string, ok: bool, f: Faults)
      modifies store`queue
      ensures State() == World(Settle(old(State()).t, id, ok, f), old(State()).objects)
    {
      if ok && f.marks {
        store.MarkSynced(id);
      } else {
        store.MarkSyncFailed(id);
      }
    }

    method DeleteRecord(id: string, at: DeleteTimes, env: Environment) returns (r: Result<bool>)
      requires store.p == p
      modifies store, index
      ensures State() == DeleteWorld(p, old(State()), id, at, env)
      ensures r == if env.unlocked then Ok(Live(old(State()).t, id)) else Err
      ensures r != Ok(true) ==> State() == old(State())
      ensures r == Ok(true) ==> DeleteSettles(old(State()), State(), id, at.queue, env)
    {
      if env.unlocked && Live(State().t, id) {
        DeleteOutcome(p, State(), id, at, env);
      }
      r := store.DeleteRecord(env.unlocked, id, at);
      if r == Ok(true) && env.reach == Connected {
        var ok := index.Remove(id, env.f.remove);
        Finish(id, ok, env.f);
      }
    }

    method SyncItem(id: string, operation: Operation, unlocked: bool, f: Faults) returns (synced: bool)
      requires store.p == p
      modifies store`queue, index
      ensures State() == SyncOne(p, old(State()), id, operation, unlocked, f)
      ensures synced == Fate(p, old(State()), id, operation, unlocked, f)
      ensures ItemSettles(old(State()), State(), id, synced)
      ensures ItemReaches(p, old(State()), State(), id, operation, Fetch(p, old(State()).t, unlocked, id), f, synced)
    {
      ItemOutcome(p, State(), id, operation, unlocked, f);
      if operation == Delete {
        var ok := index.Remove(id, f.remove);
        Finish(id, ok, f);
        return ok && f.marks;
      }
      var found := store.Get(unlocked, id);
      if found.Err? {
        store.MarkSyncFailed(id);
        return false;
      }
      var ok := true;
      if found.value.Some? {
        ok := index.Upsert(p, found.value.value, f);
      }
      Finish(id, ok, f);
      synced := ok && f.marks;
    }

    /** `f[i]` is what the backend does to the i-th item. */
    method Sync(limit: int, unlocked: bool, reach: Reach, f: seq<Faults>)
        returns (r: Result<(nat, int)>, ghost batch: seq<string>)
      requires store.p == p
      requires |f| >= Between(1, 1000, limit)
      modifies store`queue, index
      ensures reach == Raises ==> r == Err && State() == old(State())
      ensures reach == Absent ==> r == Ok((0, 0)) && State() == old(State())
      ensures reach == Connected ==> IsPending(old(store.queue), limit, batch)
      ensures reach == Connected ==> |batch| <= |f| && forall id :: id in batch ==> id in old(store.queue)
      ensures reach == Connected ==>
        State() == SyncBatch(p, old(State()), Operations(old(store.queue), batch), unlocked, f[..|batch|])
      ensures reach == Connected ==>
        var synced := Synced(p, old(State()), Operations(old(store.queue), batch), unlocked, f[..|batch|]);
        r == Ok((synced, |batch| - synced))
    {
      batch := [];
      if reach == Raises {
        return Err, batch;
      }
      if reach == Absent {
        return Ok((0, 0)), batch;
      }
      var pending := store.PendingSync(limit);
      batch := pending;
      PendingBatch(store.queue, limit, pending);
      var items := Operations(store.queue, pending);
      var synced := SyncAll(items, unlocked, f[..|items|]);
      r := Ok((synced, |items| - synced));
    }

    method SyncAll(items: seq<(string, Operation)>, unlocked: bool, f: seq<Faults>) returns (synced: nat)
      requires store.p == p
      requires |f| == |items|
      modifies store`queue, index
      ensures State() == SyncBatch(p, old(State()), items, unlocked, f)
      ensures synced == Synced(p, old(State()), items, unlocked, f)
    {
      synced := 0;
      for i := 0 to |items|
        invariant State() == SyncBatch(p, old(State()), items[..i], unlocked, f[..i])
        invariant synced == Synced(p, old(State()), items[..i], unlocked, f[..i])
      {
        var ok := SyncItem(items[i].0, items[i].1, unlocked, f[i]);
        assert items[..i + 1][..i] == items[..i] && f[..i + 1][..i] == f[..i];
        if ok { synced := synced + 1; }
      }
      assert items[..|items|] == items && f[..|f|] == f;
    }
  }
}
