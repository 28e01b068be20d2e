/** Compaction records: an index over source records that replaces none of them. */
module Compaction {
  import opened Prelude
  import opened Records
  import opened EncryptedStore
  import opened StoreInvariant
  import opened Retention

  const MAX_SOURCES := 200
  const COMPACTION_TYPE := "memory-compaction"

  function Strings(values: seq<string>): Json { Arr(seq(|values|, i requires 0 <= i < |values| => Str(values[i]))) }

  function TagCounts(sources: seq<StoredRecord>): multiset<string> {
    if sources == [] then multiset{}
    else TagCounts(sources[..|sources| - 1]) + multiset(sources[|sources| - 1].clear.tags)
  }

  function Ids(sources: seq<StoredRecord>): seq<string> {
    seq(|sources|, i requires 0 <= i < |sources| => sources[i].recordId)
  }

  function Entry(p: Primitives, r: StoredRecord): Json {
    Obj(map["recordId" := Str(r.recordId), "recordType" := Str(r.recordType), "title" := Str(r.clear.title),
            "summary" := Str(r.clear.summary), "truthLabel" := Str(r.truthLabel),
            "validationStatus" := Str(r.validationStatus), "updatedAt" := Num(p.decimal(r.updatedAt)),
            "digest" := Str(r.digest)])
  }

  function Digests(sources: seq<StoredRecord>): map<string, Json> {
    if sources == [] then map[]
    else Digests(sources[..|sources| - 1])[sources[|sources| - 1].recordId := Str(sources[|sources| - 1].digest)]
  }

  function CompactionRequest(p: Primitives, sources: seq<StoredRecord>, title: string, now: int): Request {
    var topTags := p.topTags(TagCounts(sources));
    var ids := Strings(Ids(sources));
    Request(
      COMPACTION_TYPE,
      Obj(map[
        "schema" := Str("cyberforge-memory-compaction-v1"),
        "sourceRecordIds" := ids,
        "sourceDigests" := Obj(Digests(sources)),
        "sourceTypes" := Strings(p.sortedUnique(set r | r in sources :: r.recordType)),
        "topTags" := Strings(topTags),
        "entries" := Arr(seq(|sources|, i requires 0 <= i < |sources| => Entry(p, sources[i]))),
        "compactedAt" := Num(p.decimal(now))]),
      "", "default", "deterministic provenance-preserving memory compaction", "derived",
      Some(title), Some("Compacted index for " + p.decimal(|sources|) + " encrypted CyberForge records."),
      [COMPACTION_TYPE] + topTags,
      map["sourceRecordIds" := ids, "sourceCount" := Num(p.decimal(|sources|)), "retentionHold" := Bool(true)])
  }

  /** An object that lists exactly these sources, in this order. */
  predicate Names(fields: map<string, Json>, ids: seq<string>) {
    "sourceRecordIds" in fields && fields["sourceRecordIds"] == Strings(ids)
  }

  /** The stored digest of every source. */
  predicate HoldsDigests(fields: map<string, Json>, t: Tables, ids: seq<string>) {
    && (forall id :: id in ids ==> id in t.records)
    && "sourceDigests" in fields
    && fields["sourceDigests"] == Obj(map id | id in ids :: Str(t.records[id].digest))
  }

  /** A preserved record that names the sources in metadata and payload, with their digests. */
  predicate Indexes(r: StoredRecord, t: Tables, ids: seq<string>) {
    && IsTrue(r.clear.metadata, "retentionHold") && Names(r.clear.metadata, ids)
    && r.clear.payload.Obj? && Names(r.clear.payload.fields, ids) && HoldsDigests(r.clear.payload.fields, t, ids)
  }

  /** The sources are the rows under `ids`, decrypted. */
  ghost predicate Selected(p: Primitives, t: Tables, ids: seq<string>, sources: seq<StoredRecord>) {
    |sources| == |ids| && forall i :: 0 <= i < |ids| ==>
      Live(t, ids[i]) && Decode(p, ids[i], t.records[ids[i]]) == Ok(sources[i])
  }

  method Select(store: Store, unlocked: bool, ids: seq<string>) returns (r: Result<seq<StoredRecord>>)
    ensures r.Ok? ==> Selected(store.p, store.State(), ids, r.value)
    ensures unlocked && Readable(store.p, store.State()) && (forall id :: id in ids ==> Live(store.State(), id)) ==>
        r.Ok?
    ensures !unlocked && ids != [] ==> r.Err?
  {
    var sources: seq<StoredRecord> := [];
    for i := 0 to |ids|
      invariant Selected(store.p, store.State(), ids[..i], sources)
      invariant !unlocked ==> i == 0
    {
      assert ids[i] in ids;
      var found := store.Get(unlocked, ids[i]);
      if found.Err? || found.value.None? {
        return Err;
      }
      sources := sources + [found.value.value];
    }
    assert ids[..|ids|] == ids;
    r := Ok(sources);
  }

  lemma {:induction false} DigestsRead(p: Primitives, t: Tables, ids: seq<string>, sources: seq<StoredRecord>)
    requires Selected(p, t, ids, sources)
    ensures forall id :: id in Digests(sources) <==> id in ids
    ensures forall id :: id in ids ==> id in t.records && Digests(sources)[id] == Str(t.records[id].digest)
  {
    if sources != [] {
      var n := |sources| - 1;
      DigestsRead(p, t, ids[..n], sources[..n]);
      assert ids == ids[..n] + [ids[n]];
      assert sources[n].recordId == ids[n] && sources[n].digest == t.records[ids[n]].digest;
    }
  }

  lemma RequestPreserved(p: Primitives, t: Tables, sources: seq<StoredRecord>, title: string, at: Moment)
    ensures var req := CompactionRequest(p, sources, title, at.now);
      && FitsColumns(req) && IdOf(req, at) == at.freshId
      && IsTrue(PutReturns(p, t, req, at).clear.metadata, "retentionHold")
      && Names(PutReturns(p, t, req, at).clear.metadata, Ids(sources))
  {
  }

  lemma RequestPayload(p: Primitives, sources: seq<StoredRecord>, title: string, now: int)
    ensures var payload := CompactionRequest(p, sources, title, now).payload;
      && payload.Obj? && Names(payload.fields, Ids(sources))
      && "sourceDigests" in payload.fields && payload.fields["sourceDigests"] == Obj(Digests(sources))
  {
  }

  lemma RequestIndexes(p: Primitives, t: Tables, ids: seq<string>, sources: seq<StoredRecord>, title: string,
      at: Moment)
    requires Selected(p, t, ids, sources)
    ensures Indexes(PutReturns(p, t, CompactionRequest(p, sources, title, at.now), at), t, ids)
  {
    assert Ids(sources) == ids;
    DigestsRead(p, t, ids, sources);
    assert Digests(sources) == map id | id in ids :: Str(t.records[id].digest);
    RequestPreserved(p, t, sources, title, at);
    RequestPayload(p, sources, title, at.now);
    StoresPayload(p, t, CompactionRequest(p, sources, title, at.now), at);
  }

  lemma StoresPayload(p: Primitives, t: Tables, req: Request, at: Moment)
    ensures PutReturns(p, t, req, at).clear.payload == req.payload
  {
  }

  predicate HasText(fields: map<string, Json>, key: string, text: string) { key in fields && fields[key] == Str(text) }

  /** An entry repeats what the row and its clear text say of a source. */
  predicate Tells(p: Primitives, entry: Json, id: string, row: Row, clear: Clear) {
    && entry.Obj? && HasText(entry.fields, "recordId", id) && HasText(entry.fields, "digest", row.digest)
    && HasText(entry.fields, "recordType", row.recordType) && HasText(entry.fields, "truthLabel", row.truthLabel)
    && HasText(entry.fields, "validationStatus", row.validationStatus)
    && HasText(entry.fields, "title", clear.title) && HasText(entry.fields, "summary", clear.summary)
    && "updatedAt" in entry.fields && entry.fields["updatedAt"] == Num(p.decimal(row.updatedAt))
  }

  /** The stored payload has one entry for each source, in the order given. */
  lemma EntriesTell(p: Primitives, t: Tables, ids: seq<string>, sources: seq<StoredRecord>, title: string, at: Moment,
      i: nat)
    requires Selected(p, t, ids, sources) && i < |ids|
    ensures var payload := PutReturns(p, t, CompactionRequest(p, sources, title, at.now), at).clear.payload;
      && payload.Obj? && "entries" in payload.fields && payload.fields["entries"].Arr?
      && |payload.fields["entries"].items| == |ids|
      && Tells(p, payload.fields["entries"].items[i], ids[i], t.records[ids[i]], sources[i].clear)
  {
    StoresPayload(p, t, CompactionRequest(p, sources, title, at.now), at);
    assert Decode(p, ids[i], t.records[ids[i]]) == Ok(sources[i]);
    EntryTells(p, sources[i]);
    RequestEntries(p, sources, title, at.now);
  }

  lemma EntryTells(p: Primitives, r: StoredRecord)
    ensures var fields := Entry(p, r).fields;
      && HasText(fields, "recordId", r.recordId) && HasText(fields, "digest", r.digest)
      && HasText(fields, "recordType", r.recordType) && HasText(fields, "truthLabel", r.truthLabel)
      && HasText(fields, "validationStatus", r.validationStatus)
      && HasText(fields, "title", r.clear.title) && HasText(fields, "summary", r.clear.summary)
      && "updatedAt" in fields && fields["updatedAt"] == Num(p.decimal(r.updatedAt))
  {
  }

  lemma RequestEntries(p: Primitives, sources: seq<StoredRecord>, title: string, now: int)
    ensures var payload := CompactionRequest(p, sources, title, now).payload;
      && payload.Obj? && "entries" in payload.fields && payload.fields["entries"].Arr?
      && |payload.fields["entries"].items| == |sources|
      && forall i :: 0 <= i < |sources| ==> payload.fields["entries"].items[i] == Entry(p, sources[i])
  {
  }

  ghost predicate SameRow(t: Tables, t': Tables, id: string) {
    (id in t'.records <==> id in t.records) && (id in t.records ==> t'.records[id] == t.records[id])
  }

  /** Only the row under `id` differs. */
  ghost predicate OnlyRow(t: Tables, t': Tables, id: string) {
    forall other :: other != id ==> SameRow(t, t', other)
  }

  lemma PutFrame(p: Primitives, t: Tables, req: Request, at: Moment, t': Tables, id: string)
    requires t' == AfterPut(p, t, req, at) && id == IdOf(req, at)
    ensures OnlyRow(t, t', id)
  {
  }

  lemma PutReadsBack(p: Primitives, t: Tables, req: Request, at: Moment, t': Tables, id: string)
    requires t' == AfterPut(p, t, req, at) && id == IdOf(req, at) && FitsColumns(req) && p.Sound()
    ensures Fetch(p, t', true, id) == Ok(Some(PutReturns(p, t, req, at)))
  {
    RowDecodes(p, t, req, at);
  }

  /** Between one and the most sources a compaction may name, all of them live. */
  predicate Compactable(t: Tables, ids: seq<string>) {
    1 <= |Unique(ids)| <= MAX_SOURCES && forall id :: id in ids ==> Live(t, id)
  }

  /** On success the source records are listed, once each, in a record no retention run may
      delete, and no other record has changed; it succeeds whenever it can. */
  method CreateCompaction(store: Store, unlocked: bool, ids: seq<string>, title: string, at: Moment)
      returns (r: Result<StoredRecord>)
    modifies store
    ensures r.Err? ==> store.State() == old(store.State())
    ensures r.Ok? ==> unlocked && Compactable(old(store.State()), ids)
    ensures unlocked && Readable(store.p, old(store.State())) && Compactable(old(store.State()), ids) ==> r.Ok?
    ensures r.Ok? ==> r.value.recordId == at.freshId && Indexes(r.value, old(store.State()), Unique(ids))
    ensures r.Ok? ==> OnlyRow(old(store.State()), store.State(), at.freshId)
    ensures r.Ok? && store.p.Sound() ==> Fetch(store.p, store.State(), true, at.freshId) == Ok(Some(r.value))
  {
    var wanted := Unique(ids);
    UniqueElements(ids);
    var selected := Select(store, unlocked, wanted);
    if selected.Err? || selected.value == [] || |selected.value| > MAX_SOURCES {
      return Err;
    }
    assert forall i :: 0 <= i < |wanted| ==> Live(store.State(), wanted[i]);
    r := Record(store, unlocked, wanted, selected.value, title, at);
  }

  method Record(store: Store, unlocked: bool, ghost ids: seq<string>, sources: seq<StoredRecord>, title: string,
      at: Moment)
      returns (r: Result<StoredRecord>)
    requires Selected(store.p, store.State(), ids, sources)
    modifies store
    ensures r.Ok? <==> unlocked
    ensures r.Err? ==> store.State() == old(store.State())
    ensures r.Ok? ==> r.value.recordId == at.freshId && Indexes(r.value, old(store.State()), ids)
    ensures r.Ok? ==> OnlyRow(old(store.State()), store.State(), at.freshId)
    ensures r.Ok? && store.p.Sound() ==> Fetch(store.p, store.State(), true, at.freshId) == Ok(Some(r.value))
  {
    ghost var t := store.State();
    var req := CompactionRequest(store.p, sources, title, at.now);
    RequestPreserved(store.p, t, sources, title, at);
    RequestIndexes(store.p, t, ids, sources, title, at);
    r := store.Put(unlocked, req, at);
    if r.Ok? {
      PutFrame(store.p, t, req, at, store.State(), at.freshId);
      if store.p.Sound() {
        PutReadsBack(store.p, t, req, at, store.State(), at.freshId);
      }
    }
  }
}
