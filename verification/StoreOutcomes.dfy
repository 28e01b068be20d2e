/** What a put, a delete and a rebuild leave in the tables, column by column, and what a caller
    and the index get to see of a record. */
module StoreOutcomes {
  import opened Prelude
  import opened Records
  import opened EncryptedStore
  import AuditChain

  /** `short` is the text cut to `width`. */
  predicate Cut(text: string, width: nat, short: string) {
    short <= text && |short| == if |text| < width then |text| else width
  }

  /** Every row, entry and token of another record is as it was. */
  ghost predicate OnlyAbout(t: Tables, t': Tables, id: string) {
    && (forall other :: other != id ==>
          && (other in t'.records <==> other in t.records)
          && (other in t.records ==> t'.records[other] == t.records[other])
          && (other in t'.queue <==> other in t.queue)
          && (other in t.queue ==> t'.queue[other] == t.queue[other]))
    && forall hash, other :: other != id ==> ((hash, other) in t'.tokens <==> (hash, other) in t.tokens)
  }

  /** The chain has one row more, which names the hash before it, repeats the operation and the
      record in its columns, and is sealed under the hash of its event. */
  predicate OneMore(p: Primitives, audit: seq<AuditRow>, audit': seq<AuditRow>, operation: string, id: string,
      event: Event, nonce: string) {
    var before := if audit == [] then AuditChain.Zeros(64) else audit[|audit| - 1].eventHash;
    var clear := AuditClear(operation, id, event);
    var hash := p.sha3(before + p.canonical(clear));
    audit' == audit + [AuditRow(operation, id, before, hash, nonce,
        p.sealEvent("cyberforge-encrypted-sqlite-v1:audit:" + hash, nonce, clear))]
  }

  /** The row of a record just put: an overwrite keeps the day of creation and revives. */
  predicate RowHolds(p: Primitives, t: Tables, row: Row, req: Request, r: StoredRecord, at: Moment) {
    && Cut(req.recordType, 96, row.recordType) && Cut(req.truthLabel, 160, row.truthLabel)
    && Cut(req.validationStatus, 64, row.validationStatus)
    && row.createdAt == r.createdAt && row.updatedAt == at.now && !row.deleted
    && r.createdAt == (if r.recordId in t.records then t.records[r.recordId].createdAt else at.now)
    && row.digest == p.digest(r.clear) && row.scopeHash == p.scopeHash(req.scope) && row.nonce == at.nonce
    && row.keyVersion == "1"
    && row.ciphertext ==
        p.seal("cyberforge-encrypted-sqlite-v1:" + r.recordId + ":" + req.recordType + ":1", at.nonce, r.clear)
  }

  /** The tokens of a record are the keyed hashes of its words. */
  ghost predicate TokensOf(p: Primitives, tokens: set<(string, string)>, id: string, words: set<string>) {
    forall hash :: (hash, id) in tokens <==> exists word :: word in words && p.blind(word) == hash
  }

  /** A put writes the caller's record under the identifier asked for, or a fresh one. */
  lemma PutWrites(p: Primitives, t: Tables, req: Request, at: Moment)
    ensures var t', r := AfterPut(p, t, req, at), PutReturns(p, t, req, at);
      && r.recordId == (if req.recordId == "" then at.freshId else req.recordId)
      && OnlyAbout(t, t', r.recordId)
      && r.recordId in t'.records && RowHolds(p, t, t'.records[r.recordId], req, r, at)
      && TokensOf(p, t'.tokens, r.recordId, RecordTokens(p, r))
      && r.recordId in t'.queue && t'.queue[r.recordId] == QueueEntry(Upsert, 0, false, at.now)
      && OneMore(p, t.audit, t'.audit, "put", r.recordId, PutEvent(req.recordType, r.digest, at.now), at.auditNonce)
  {
    var t', r := AfterPut(p, t, req, at), PutReturns(p, t, req, at);
    AadSpelled(r.recordId, req.recordType);
    OneMoreRow(p, t.audit, "put", r.recordId, PutEvent(req.recordType, r.digest, at.now), at.auditNonce);
    TokensSpelled(p, t.tokens, r.recordId, RecordTokens(p, r));
  }

  lemma AadSpelled(id: string, recordType: string)
    ensures RecordAad(id, recordType, KEY_VERSION) == "cyberforge-encrypted-sqlite-v1:" + id + ":" + recordType + ":1"
  {
    assert STORE_FORMAT + ":" == "cyberforge-encrypted-sqlite-v1:";
    assert ":" + KEY_VERSION == ":1";
    assert RecordAad(id, recordType, KEY_VERSION) == (STORE_FORMAT + ":") + id + ":" + recordType + (":" + KEY_VERSION);
  }

  lemma OneMoreRow(p: Primitives, audit: seq<AuditRow>, operation: string, id: string, event: Event, nonce: string)
    ensures OneMore(p, audit, AuditChain.Append(p, audit, operation, id, event, nonce), operation, id, event, nonce)
  {
    assert STORE_FORMAT + ":audit:" == "cyberforge-encrypted-sqlite-v1:audit:";
  }

  lemma TokensSpelled(p: Primitives, tokens: set<(string, string)>, id: string, words: set<string>)
    ensures TokensOf(p, WithoutTokens(tokens, id) + BlindRows(p, id, words), id, words)
  {
  }

  /** A stored row reads under its own identifier only. */
  lemma MovedRowFails(p: Primitives, t: Tables, req: Request, at: Moment, other: string)
    requires p.Authentic() && |req.recordType| <= 96
    ensures var t', id := AfterPut(p, t, req, at), PutReturns(p, t, req, at).recordId;
      other != id ==> Decode(p, other, t'.records[id]) == Err
  {
    var id := IdOf(req, at);
    if other != id {
      AadBinds(id, other, req.recordType);
      assert Take(req.recordType, 96) == req.recordType;
    }
  }

  lemma AadBinds(id: string, other: string, recordType: string)
    requires id != other
    ensures RecordAad(id, recordType, KEY_VERSION) != RecordAad(other, recordType, KEY_VERSION)
  {
    var before, after := STORE_FORMAT + ":", ":" + recordType + ":" + KEY_VERSION;
    assert RecordAad(id, recordType, KEY_VERSION) == before + id + after;
    assert RecordAad(other, recordType, KEY_VERSION) == before + other + after;
    if before + id + after == before + other + after {
      Sandwich(before, id, other, after);
    }
  }

  /** The text given wins over the one derived, unless it is empty, and is cut. */
  predicate Chosen(given: Option<string>, derived: string, width: nat, text: string) {
    match given
    case None => Cut(derived, width, text)
    case Some(own) => if own == "" then Cut(derived, width, text) else Cut(own, width, text)
  }

  /** What the caller of a put gets back, and the store seals. */
  lemma PutReturnsGiven(p: Primitives, t: Tables, req: Request, at: Moment)
    ensures var r, derived := PutReturns(p, t, req, at), p.derive(req.recordType, req.payload);
      && r.recordType == req.recordType && r.truthLabel == req.truthLabel
      && r.validationStatus == req.validationStatus && r.updatedAt == at.now && r.digest == p.digest(r.clear)
      && r.clear.payload == req.payload
      && Chosen(req.title, derived.title, 240, r.clear.title)
      && Chosen(req.summary, derived.summary, 8000, r.clear.summary)
      && (forall key :: key in r.clear.metadata <==> key in req.metadata || key in derived.metadata)
      && forall key :: key in r.clear.metadata ==>
          r.clear.metadata[key] == if key in req.metadata then req.metadata[key] else derived.metadata[key]
  {
  }

  ghost predicate Trimmed(tags: seq<string>, tag: string) {
    exists i :: 0 <= i < |tags| && tags[i] != "" && Cut(tags[i], 96, tag)
  }

  /** The tags kept are the non-empty ones derived or given, cut. */
  lemma TagsKept(p: Primitives, t: Tables, req: Request, at: Moment)
    requires p.Lists()
    ensures forall tag :: tag in PutReturns(p, t, req, at).clear.tags
                     <==> Trimmed(p.derive(req.recordType, req.payload).tags, tag) || Trimmed(req.tags, tag)
  {
    TrimmedTags(p.derive(req.recordType, req.payload).tags, req.tags);
  }

  lemma TrimmedTags(a: seq<string>, b: seq<string>)
    ensures forall tag ::
      tag in (set own | own in a + b && own != "" :: Take(own, 96)) <==> Trimmed(a, tag) || Trimmed(b, tag)
  {
    assert forall i :: 0 <= i < |a| ==> a[i] in a + b;
    assert forall i :: 0 <= i < |b| ==> b[i] in a + b;
    forall own, tag
      ensures Cut(own, 96, tag) <==> tag == Take(own, 96)
    {
    }
  }

  /** A delete marks the row and nothing else of it, drops the record's tokens, queues a delete
      and extends the chain; a record that is not live is left alone. */
  lemma DeleteWrites(p: Primitives, t: Tables, id: string, at: DeleteTimes)
    ensures var t' := AfterDelete(p, t, id, at);
      if id !in t.records || t.records[id].deleted then t' == t
      else
        && OnlyAbout(t, t', id)
        && id in t'.records && t'.records[id] == t.records[id].(deleted := true, updatedAt := at.row)
        && (forall hash :: (hash, id) !in t'.tokens)
        && id in t'.queue && t'.queue[id] == QueueEntry(Delete, 0, false, at.queue)
        && OneMore(p, t.audit, t'.audit, "delete", id, DeleteEvent(at.event), at.auditNonce)
  {
    OneMoreRow(p, t.audit, "delete", id, DeleteEvent(at.event), at.auditNonce);
  }

  /** A rebuild queues every live record as a fresh upsert and touches nothing else. */
  lemma RebuildQueues(t: Tables, at: int)
    ensures var t' := AfterRebuild(t, at);
      && t'.records == t.records && t'.tokens == t.tokens && t'.audit == t.audit
      && forall id :: if id in t.records && !t.records[id].deleted
                      then id in t'.queue && t'.queue[id] == QueueEntry(Upsert, 0, false, at)
                      else (id in t'.queue <==> id in t.queue) && (id in t.queue ==> t'.queue[id] == t.queue[id])
  {
  }

  /** The index is shown the record's own labels, title, summary and tags, and its metadata cut. */
  lemma ProjectShows(p: Primitives, r: StoredRecord)
    ensures var o := Project(p, r);
      && o.recordId == r.recordId && o.recordType == r.recordType && o.truthLabel == r.truthLabel
      && o.validationStatus == r.validationStatus && o.scopeHash == r.scopeHash && o.digest == r.digest
      && o.createdAt == r.createdAt && o.updatedAt == r.updatedAt
      && o.title == r.clear.title && o.summary == r.clear.summary && o.tags == r.clear.tags
      && Cut(p.dump(r.clear.metadata), 12000, o.metadataJson)
  {
  }
}
