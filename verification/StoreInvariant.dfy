/** What every transaction of the encrypted store keeps. */
module StoreInvariant {
  import opened Prelude
  import opened Records
  import opened EncryptedStore
  import AuditChain

  ghost predicate Readable(p: Primitives, t: Tables) {
    forall id :: id in t.records ==> Decode(p, id, t.records[id]).Ok?
  }

  /** The live record under an identifier, as a plain scan would decrypt it. */
  ghost function RecordAt(p: Primitives, t: Tables, id: string): StoredRecord
    requires Readable(p, t) && id in t.records
  {
    Decode(p, id, t.records[id]).value
  }

  /** The blind index holds exactly the blinded tokens of the live records. */
  ghost predicate IndexExact(p: Primitives, t: Tables)
    requires Readable(p, t)
  {
    forall hash, id :: (hash, id) in t.tokens <==>
      Live(t, id) && exists word :: word in RecordTokens(p, RecordAt(p, t, id)) && p.blind(word) == hash
  }

  /** A queued operation is `delete` exactly when its record is deleted. */
  ghost predicate QueueAgrees(t: Tables) {
    forall id :: id in t.queue ==>
      id in t.records && (t.queue[id].operation == Delete <==> t.records[id].deleted)
  }

  ghost predicate Healthy(p: Primitives, t: Tables) {
    && Readable(p, t)
    && IndexExact(p, t)
    && QueueAgrees(t)
    && AuditChain.ValidChain(p, t.audit)
  }

  /** What a row holds after `put`: the record put returns, with label and status cut. */
  function StoredAs(p: Primitives, t: Tables, req: Request, at: Moment): StoredRecord {
    var truthLabel, validationStatus := Take(req.truthLabel, 160), Take(req.validationStatus, 64);
    PutReturns(p, t, req, at).(truthLabel := truthLabel, validationStatus := validationStatus)
  }

  lemma RowDecodes(p: Primitives, t: Tables, req: Request, at: Moment)
    requires p.Sound() && |req.recordType| <= 96
    ensures Decode(p, IdOf(req, at), AfterPut(p, t, req, at).records[IdOf(req, at)]) == Ok(StoredAs(p, t, req, at))
    ensures FitsColumns(req) ==> StoredAs(p, t, req, at) == PutReturns(p, t, req, at)
  {
  }

  /** A record can be read back as `put` returned it if and only if its type, truth label and
      validation status fit their columns: the row keeps them cut, while the associated data
      is made from the uncut type. */
  lemma PutIsReadable(p: Primitives, t: Tables, req: Request, at: Moment)
    requires p.Sound() && p.Authentic()
    ensures Fetch(p, AfterPut(p, t, req, at), true, IdOf(req, at)) == Ok(Some(PutReturns(p, t, req, at)))
       <==> FitsColumns(req)
  {
    if |req.recordType| <= 96 {
      RowDecodes(p, t, req, at);
    } else {
      UnreadableType(p, t, req, at);
    }
  }

  /** Over the width, the record is written and can never be decrypted again. */
  lemma UnreadableType(p: Primitives, t: Tables, req: Request, at: Moment)
    requires p.Sound() && p.Authentic()
    requires |req.recordType| > 96
    ensures Fetch(p, AfterPut(p, t, req, at), true, IdOf(req, at)) == Err
    ensures !Readable(p, AfterPut(p, t, req, at))
  {
    var id := IdOf(req, at);
    var sealed := RecordAad(id, req.recordType, KEY_VERSION);
    var stored := RecordAad(id, Take(req.recordType, 96), KEY_VERSION);
    assert |sealed| != |stored|;
    assert id in AfterPut(p, t, req, at).records;
  }

  function HashesOf(p: Primitives, req: Request, truthLabel: string, validationStatus: string): set<string> {
    var words := p.tokens(SearchText(p, req.recordType, truthLabel, validationStatus, ClearOf(p, req)));
    set word | word in words :: p.blind(word)
  }

  /** The type can be read back, and cutting label and status loses and adds no token hash. */
  predicate Indexable(p: Primitives, req: Request) {
    && |req.recordType| <= 96
    && HashesOf(p, req, req.truthLabel, req.validationStatus)
    == HashesOf(p, req, Take(req.truthLabel, 160), Take(req.validationStatus, 64))
  }

  lemma FittingIsIndexable(p: Primitives, req: Request)
    requires FitsColumns(req)
    ensures Indexable(p, req)
  {
  }

  lemma PutKeepsHealthy(p: Primitives, t: Tables, req: Request, at: Moment)
    requires p.Sound() && Indexable(p, req)
    requires Healthy(p, t)
    ensures Healthy(p, AfterPut(p, t, req, at))
  {
    var id, t' := IdOf(req, at), AfterPut(p, t, req, at);
    RowDecodes(p, t, req, at);
    assert forall other :: other in t.records && other != id ==> t'.records[other] == t.records[other];
    PutIndexExact(p, t, req, at);
    PutAudited(p, t, req, at);
  }

  /** The chain goes on verifying, and gains the put's event, whatever the request. */
  lemma PutAudited(p: Primitives, t: Tables, req: Request, at: Moment)
    requires p.Sound() && AuditChain.ValidChain(p, t.audit)
    ensures var audit := AfterPut(p, t, req, at).audit;
      && AuditChain.ValidChain(p, audit)
      && AuditChain.Events(p, audit) == AuditChain.Events(p, t.audit) + [PutLogged(p, req, at)]
  {
    var event := PutEvent(req.recordType, p.digest(ClearOf(p, req)), at.now);
    AuditChain.AppendKeepsValid(p, t.audit, "put", IdOf(req, at), event, at.auditNonce);
  }

  function PutLogged(p: Primitives, req: Request, at: Moment): Option<AuditClear> {
    Some(AuditClear("put", IdOf(req, at), PutEvent(req.recordType, p.digest(ClearOf(p, req)), at.now)))
  }

  lemma DeleteAudited(p: Primitives, t: Tables, id: string, at: DeleteTimes)
    requires p.Sound() && AuditChain.ValidChain(p, t.audit) && Live(t, id)
    ensures var audit := AfterDelete(p, t, id, at).audit;
      && AuditChain.ValidChain(p, audit)
      && AuditChain.Events(p, audit) == AuditChain.Events(p, t.audit) + [DeleteLogged(id, at)]
  {
    AuditChain.AppendKeepsValid(p, t.audit, "delete", id, DeleteEvent(at.event), at.auditNonce);
  }

  function DeleteLogged(id: string, at: DeleteTimes): Option<AuditClear> {
    Some(AuditClear("delete", id, DeleteEvent(at.event)))
  }

  lemma PutIndexExact(p: Primitives, t: Tables, req: Request, at: Moment)
    requires p.Sound() && Indexable(p, req)
    requires Readable(p, t) && IndexExact(p, t)
    requires Readable(p, AfterPut(p, t, req, at))
    ensures IndexExact(p, AfterPut(p, t, req, at))
  {
    var id, t' := IdOf(req, at), AfterPut(p, t, req, at);
    forall hash, other
      ensures (hash, other) in t'.tokens <==>
        Live(t', other) && exists word :: word in RecordTokens(p, RecordAt(p, t', other)) && p.blind(word) == hash
    {
      if other != id {
        OldTokens(p, t, req, at, hash, other);
      } else {
        NewTokens(p, t, req, at, hash);
      }
    }
  }

  lemma OldTokens(p: Primitives, t: Tables, req: Request, at: Moment, hash: string, other: string)
    requires other != IdOf(req, at)
    ensures var t' := AfterPut(p, t, req, at);
      && ((hash, other) in t'.tokens <==> (hash, other) in t.tokens) && (Live(t', other) <==> Live(t, other))
      && (other in t'.records <==> other in t.records) && (other in t.records ==> t'.records[other] == t.records[other])
  {
  }

  /** The hashes filed for the record, and those a scan of its row would blind. */
  lemma NewTokens(p: Primitives, t: Tables, req: Request, at: Moment, hash: string)
    requires p.Sound() && |req.recordType| <= 96 && Readable(p, AfterPut(p, t, req, at))
    ensures var id, t' := IdOf(req, at), AfterPut(p, t, req, at);
      && ((hash, id) in t'.tokens <==> hash in HashesOf(p, req, req.truthLabel, req.validationStatus))
      && ((exists word :: word in RecordTokens(p, RecordAt(p, t', id)) && p.blind(word) == hash) <==>
          hash in HashesOf(p, req, Take(req.truthLabel, 160), Take(req.validationStatus, 64)))
  {
    var id, t' := IdOf(req, at), AfterPut(p, t, req, at);
    RowDecodes(p, t, req, at);
    var words := p.tokens(SearchText(p, req.recordType, req.truthLabel, req.validationStatus, ClearOf(p, req)));
    assert (hash, id) in t'.tokens <==> (hash, id) in BlindRows(p, id, words);
  }

  /** A put leaves a healthy store healthy if and only if its request is indexable. */
  lemma PutHealthyExactly(p: Primitives, t: Tables, req: Request, at: Moment)
    requires p.Sound() && p.Authentic()
    requires Healthy(p, t)
    ensures Healthy(p, AfterPut(p, t, req, at)) <==> Indexable(p, req)
  {
    if Indexable(p, req) {
      PutKeepsHealthy(p, t, req, at);
    } else if |req.recordType| > 96 {
      UnreadableType(p, t, req, at);
    } else if Healthy(p, AfterPut(p, t, req, at)) {
      var id, t' := IdOf(req, at), AfterPut(p, t, req, at);
      forall hash
        ensures hash in HashesOf(p, req, req.truthLabel, req.validationStatus) <==>
                hash in HashesOf(p, req, Take(req.truthLabel, 160), Take(req.validationStatus, 64))
      {
        NewTokens(p, t, req, at, hash);
        assert Live(t', id);
      }
      assert false;
    }
  }

  lemma DeleteKeepsHealthy(p: Primitives, t: Tables, id: string, at: DeleteTimes)
    requires p.Sound()
    requires Healthy(p, t)
    ensures Healthy(p, AfterDelete(p, t, id, at))
  {
    if Live(t, id) {
      var t' := AfterDelete(p, t, id, at);
      assert forall other :: other in t.records && other != id ==> t'.records[other] == t.records[other];
      DeleteIndexExact(p, t, id, at);
      DeleteAudited(p, t, id, at);
    }
  }

  lemma DeleteIndexExact(p: Primitives, t: Tables, id: string, at: DeleteTimes)
    requires Readable(p, t) && IndexExact(p, t) && Live(t, id)
    requires Readable(p, AfterDelete(p, t, id, at))
    ensures IndexExact(p, AfterDelete(p, t, id, at))
  {
    var t' := AfterDelete(p, t, id, at);
    forall hash, other
      ensures (hash, other) in t'.tokens <==>
        Live(t', other) && exists word :: word in RecordTokens(p, RecordAt(p, t', other)) && p.blind(word) == hash
    {
      if other != id {
        assert (hash, other) in t'.tokens <==> (hash, other) in t.tokens;
        assert Live(t', other) <==> Live(t, other);
      }
    }
  }

  /** Queue bookkeeping touches nothing else. */
  lemma QueueOnlyKeepsHealthy(p: Primitives, t: Tables, t': Tables)
    requires Healthy(p, t)
    requires t' == t.(queue := t'.queue) && QueueAgrees(t')
    ensures Healthy(p, t')
  {
    assert forall id :: Live(t', id) <==> Live(t, id);
    assert forall id :: id in t.records ==> RecordAt(p, t', id) == RecordAt(p, t, id);
  }

  lemma RebuildKeepsHealthy(p: Primitives, t: Tables, at: int)
    requires Healthy(p, t)
    ensures Healthy(p, AfterRebuild(t, at))
  {
    QueueOnlyKeepsHealthy(p, t, AfterRebuild(t, at));
  }
}
