/** The encrypted system of record: four tables, changed one transaction at a time.
    Each method is tied to a function on table values, and what the store promises is
    proved about those functions. */
module EncryptedStore {
  import opened Prelude
  import opened Records
  import AuditChain

  const REBUILD_CONFIRMATION := "REBUILD CYBERFORGE WEAVIATE"

  function BlindRows(p: Primitives, recordId: string, words: set<string>): set<(string, string)> {
    set word | word in words :: (p.blind(word), recordId)
  }

  function WithoutTokens(tokens: set<(string, string)>, recordId: string): set<(string, string)> {
    set row | row in tokens && row.1 != recordId
  }

  function NewRow(p: Primitives, req: Request, recordId: string, createdAt: int, now: int, nonce: string): Row {
    var clear := ClearOf(p, req);
    Row(Take(req.recordType, 96), createdAt, now, Take(req.truthLabel, 160), Take(req.validationStatus, 64),
        p.scopeHash(req.scope), p.digest(clear), KEY_VERSION, nonce,
        p.seal(RecordAad(recordId, req.recordType, KEY_VERSION), nonce, clear), false)
  }

  /** What only the moment of a `put` decides: a fresh identifier, the clock, two nonces. */
  datatype Moment = Moment(freshId: string, now: int, nonce: string, auditNonce: string)

  function IdOf(req: Request, at: Moment): string {
    if req.recordId == "" then at.freshId else req.recordId
  }

  function CreatedAt(t: Tables, recordId: string, now: int): int {
    if recordId in t.records then t.records[recordId].createdAt else now
  }

  /** The tables after `put`. */
  function AfterPut(p: Primitives, t: Tables, req: Request, at: Moment): Tables {
    var id := IdOf(req, at);
    var clear := ClearOf(p, req);
    Tables(
      t.records[id := NewRow(p, req, id, CreatedAt(t, id, at.now), at.now, at.nonce)],
      WithoutTokens(t.tokens, id)
      + BlindRows(p, id, p.tokens(SearchText(p, req.recordType, req.truthLabel, req.validationStatus, clear))),
      t.queue[id := QueueEntry(Upsert, 0, false, at.now)],
      AuditChain.Append(p, t.audit, "put", id, PutEvent(req.recordType, p.digest(clear), at.now), at.auditNonce))
  }

  /** The record `put` hands back; its labels are the caller's, not the row's. */
  function PutReturns(p: Primitives, t: Tables, req: Request, at: Moment): StoredRecord {
    var id := IdOf(req, at);
    var clear := ClearOf(p, req);
    StoredRecord(id, req.recordType, CreatedAt(t, id, at.now), at.now, req.truthLabel, req.validationStatus,
                 p.digest(clear), p.scopeHash(req.scope), clear)
  }

  predicate Live(t: Tables, recordId: string) {
    recordId in t.records && !t.records[recordId].deleted
  }

  function LiveIds(t: Tables): set<string> { set id | id in t.records && !t.records[id].deleted }

  /** `delete` reads the clock three times: for the row, the queue entry and the event. */
  datatype DeleteTimes = DeleteTimes(row: int, queue: int, event: int, auditNonce: string)

  function AfterDelete(p: Primitives, t: Tables, recordId: string, at: DeleteTimes): Tables {
    if !Live(t, recordId) then t
    else Tables(
      t.records[recordId := t.records[recordId].(deleted := true, updatedAt := at.row)],
      WithoutTokens(t.tokens, recordId),
      t.queue[recordId := QueueEntry(Delete, 0, false, at.queue)],
      AuditChain.Append(p, t.audit, "delete", recordId, DeleteEvent(at.event), at.auditNonce))
  }

  /** `queue_full_weaviate_rebuild`. */
  function AfterRebuild(t: Tables, at: int): Tables {
    t.(queue := Requeue(t.queue, LiveIds(t), at))
  }

  function Requeue(queue: map<string, QueueEntry>, ids: set<string>, at: int): map<string, QueueEntry> {
    map id | id in queue.Keys + ids :: if id in ids then QueueEntry(Upsert, 0, false, at) else queue[id]
  }

  lemma RequeueOne(queue: map<string, QueueEntry>, ids: set<string>, id: string, at: int)
    ensures Requeue(queue, ids, at)[id := QueueEntry(Upsert, 0, false, at)] == Requeue(queue, ids + {id}, at)
  {
  }

  function AfterSynced(t: Tables, recordId: string): Tables { t.(queue := t.queue - {recordId}) }

  function AfterSyncFailed(t: Tables, recordId: string): Tables {
    if recordId !in t.queue then t
    else
      var entry := t.queue[recordId];
      t.(queue := t.queue[recordId := entry.(attempts := entry.attempts + 1, failed := true)])
  }

  /** `get`: the vault session is only looked at when there is a row to decrypt. */
  function Fetch(p: Primitives, t: Tables, unlocked: bool, recordId: string): Result<Option<StoredRecord>> {
    if !Live(t, recordId) then Ok(None)
    else if !unlocked then Err
    else match Decode(p, recordId, t.records[recordId])
      case Ok(r) => Ok(Some(r))
      case Err => Err
  }

  /** The whole queue listed oldest first, ties in any order. */
  ghost predicate ListedByAge(queue: map<string, QueueEntry>, all: seq<string>) {
    && Distinct(all)
    && |all| == |queue|
    && (forall id :: id in all <==> id in queue)
    && (forall i, j :: 0 <= i < j < |all| ==> queue[all[i]].queuedAt <= queue[all[j]].queuedAt)
  }

  /** A batch `pending_sync` may return. */
  ghost predicate IsPending(queue: map<string, QueueEntry>, limit: int, batch: seq<string>) {
    exists all :: ListedByAge(queue, all) && batch == Take(all, Between(1, 1000, limit))
  }

  lemma PendingBatch(queue: map<string, QueueEntry>, limit: int, batch: seq<string>)
    requires IsPending(queue, limit, batch)
    ensures Distinct(batch)
    ensures |batch| == Min(|queue|, Between(1, 1000, limit))
    ensures forall id :: id in batch ==> id in queue
  {
    var all :| ListedByAge(queue, all) && batch == Take(all, Between(1, 1000, limit));
    assert forall i :: 0 <= i < |batch| ==> batch[i] == all[i];
    forall id | id in batch
      ensures id in queue
    {
      var i :| 0 <= i < |batch| && batch[i] == id;
      assert all[i] in all;
    }
  }

  lemma ByAge(queue: map<string, QueueEntry>, keys: map<string, Key>, all: seq<string>)
    requires keys == map id | id in queue :: Key(-queue[id].queuedAt, 0)
    requires Ordered(keys, all) && |all| == |keys|
    ensures ListedByAge(queue, all)
  {
    assert keys.Keys == queue.Keys;
    forall i, j | 0 <= i < j < |all|
      ensures queue[all[i]].queuedAt <= queue[all[j]].queuedAt
    {
      assert all[i] in all && all[j] in all && keys[all[i]].AtLeast(keys[all[j]]);
    }
  }

  class Store {
    const p: Primitives
    var records: map<string, Row>
    var tokens: set<(string, string)>
    var queue: map<string, QueueEntry>
    var audit: seq<AuditRow>

    function State(): Tables
      reads this
    {
      Tables(records, tokens, queue, audit)
    }

    constructor (p: Primitives)
      ensures this.p == p
      ensures State() == Tables(map[], {}, map[], [])
    {
      this.p := p;
      records, tokens, queue, audit := map[], {}, map[], [];
    }

    method Put(unlocked: bool, req: Request, at: Moment) returns (r: Result<StoredRecord>)
      modifies this
      ensures !unlocked ==> r == Err && State() == old(State())
      ensures unlocked ==> State() == AfterPut(p, old(State()), req, at)
      ensures unlocked ==> r == Ok(PutReturns(p, old(State()), req, at))
    {
      if !unlocked {
        return Err;
      }
      var id := if req.recordId == "" then at.freshId else req.recordId;
      var clear := ClearOf(p, req);
      var createdAt := if id in records then records[id].createdAt else at.now;
      records := records[id := NewRow(p, req, id, createdAt, at.now, at.nonce)];
      DropTokens(id);
      AddTokens(id, p.tokens(SearchText(p, req.recordType, req.truthLabel, req.validationStatus, clear)));
      queue := queue[id := QueueEntry(Upsert, 0, false, at.now)];
      audit := AuditChain.Append(p, audit, "put", id, PutEvent(req.recordType, p.digest(clear), at.now), at.auditNonce);
      r := Ok(StoredRecord(id, req.recordType, createdAt, at.now, req.truthLabel, req.validationStatus,
                           p.digest(clear), p.scopeHash(req.scope), clear));
    }

    method DropTokens(recordId: string)
      modifies this`tokens
      ensures tokens == WithoutTokens(old(tokens), recordId)
    {
      tokens := set row | row in tokens && row.1 != recordId;
    }

    method AddTokens(recordId: string, words: set<string>)
      modifies this`tokens
      ensures tokens == old(tokens) + BlindRows(p, recordId, words)
    {
      var rest := words;
      while rest != {}
        invariant rest <= words
        invariant tokens == old(tokens) + BlindRows(p, recordId, words - rest)
        decreases rest
      {
        var word :| word in rest;
        assert words - (rest - {word}) == (words - rest) + {word};
        tokens := tokens + {(p.blind(word), recordId)};
        rest := rest - {word};
      }
      assert words - rest == words;
    }

    method DeleteRecord(unlocked: bool, recordId: string, at: DeleteTimes) returns (r: Result<bool>)
      modifies this
      ensures !unlocked ==> r == Err && State() == old(State())
      ensures unlocked ==> r == Ok(Live(old(State()), recordId))
      ensures unlocked ==> State() == AfterDelete(p, old(State()), recordId, at)
    {
      if !unlocked {
        return Err;
      }
      if recordId !in records || records[recordId].deleted {
        return Ok(false);
      }
      records := records[recordId := records[recordId].(deleted := true, updatedAt := at.row)];
      DropTokens(recordId);
      queue := queue[recordId := QueueEntry(Delete, 0, false, at.queue)];
      audit := AuditChain.Append(p, audit, "delete", recordId, DeleteEvent(at.event), at.auditNonce);
      r := Ok(true);
    }

    method Get(unlocked: bool, recordId: string) returns (r: Result<Option<StoredRecord>>)
      ensures r == Fetch(p, State(), unlocked, recordId)
    {
      if recordId !in records || records[recordId].deleted {
        return Ok(None);
      }
      if !unlocked {
        return Err;
      }
      var decoded := Decode(p, recordId, records[recordId]);
      r := if decoded.Ok? then Ok(Some(decoded.value)) else Err;
    }

    method PendingSync(limit: int) returns (batch: seq<string>)
      ensures IsPending(queue, limit, batch)
    {
      var keys := map id | id in queue :: Key(-queue[id].queuedAt, 0);
      var all := OrderBy(keys);
      assert keys.Keys == queue.Keys;
      batch := Take(all, Between(1, 1000, limit));
      ByAge(queue, keys, all);
    }

    method MarkSynced(recordId: string)
      modifies this`queue
      ensures State() == AfterSynced(old(State()), recordId)
    {
      queue := queue - {recordId};
    }

    method MarkSyncFailed(recordId: string)
      modifies this`queue
      ensures State() == AfterSyncFailed(old(State()), recordId)
    {
      if recordId in queue {
        queue := queue[recordId := queue[recordId].(attempts := queue[recordId].attempts + 1, failed := true)];
      }
    }

    method Enqueue(ids: set<string>, at: int)
      modifies this`queue
      ensures queue == Requeue(old(queue), ids, at)
    {
      var rest := ids;
      while rest != {}
        invariant rest <= ids
        invariant queue == Requeue(old(queue), ids - rest, at)
        decreases rest
      {
        var id :| id in rest;
        RequeueOne(old(queue), ids - rest, id, at);
        assert ids - (rest - {id}) == (ids - rest) + {id};
        queue := queue[id := QueueEntry(Upsert, 0, false, at)];
        rest := rest - {id};
      }
      assert ids - rest == ids;
    }

    method QueueRebuild(confirmation: string, unlocked: bool, at: int) returns (r: Result<nat>)
      modifies this`queue
      ensures confirmation != REBUILD_CONFIRMATION || !unlocked ==> r == Err && State() == old(State())
      ensures confirmation == REBUILD_CONFIRMATION && unlocked ==>
        r == Ok(|LiveIds(old(State()))|) && State() == AfterRebuild(old(State()), at)
    {
      if confirmation != REBUILD_CONFIRMATION || !unlocked {
        return Err;
      }
      var live := LiveIds(State());
      Enqueue(live, at);
      r := Ok(|live|);
    }
  }
}
