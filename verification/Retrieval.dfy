/** `StorageCoordinator.search`: reciprocal-rank fusion, temporal expansion and greedy
    diverse selection. */
module Retrieval {
  import opened Prelude
  import opened Records
  import opened EncryptedStore
  import opened StoreInvariant
  import opened BlindSearch

  /** `memory_rrf_k` and `memory_mmr_lambda`. */
  datatype Weights = Weights(k: nat, lambda: real)

  /** A dictionary in insertion order. */
  datatype Found = Found(order: seq<string>, records: map<string, StoredRecord>, rrf: map<string, real>)

  function ScoreOf(rrf: map<string, real>, id: string): real { if id in rrf then rrf[id] else 0.0 }

  function Bump(rrf: map<string, real>, id: string, amount: real): map<string, real> {
    rrf[id := ScoreOf(rrf, id) + amount]
  }

  function Share(k: nat, rank: nat): real
    requires rank > 0
  {
    1.0 / (k + rank) as real
  }

  function Nudge(k: nat): real { 0.15 / (k + 1) as real }

  /** The reciprocal-rank shares an identifier earns in one ranked list. */
  function RankScore(k: nat, ids: seq<string>, id: string): real {
    if ids == [] then 0.0
    else RankScore(k, ids[..|ids| - 1], id) + if ids[|ids| - 1] == id then Share(k, |ids|) else 0.0
  }

  function NeighborScore(k: nat, ids: seq<string>, id: string): real {
    if ids == [] then 0.0
    else NeighborScore(k, ids[..|ids| - 1], id) + if ids[|ids| - 1] == id then Nudge(k) else 0.0
  }

  /** The fused score: one share per list, and a nudge for every temporal neighbourhood. */
  function Fused(k: nat, lexical: seq<string>, indexed: seq<string>, neighbors: seq<string>, id: string): real {
    RankScore(k, lexical, id) + RankScore(k, indexed, id) + NeighborScore(k, neighbors, id)
  }

  /** Everything found is a live record, decrypted, and listed once. */
  ghost predicate Sane(p: Primitives, t: Tables, found: Found) {
    && Distinct(found.order)
    && (forall id :: id in found.order <==> id in found.records)
    && (forall id :: id in found.records ==> Live(t, id) && Decode(p, id, t.records[id]) == Ok(found.records[id]))
  }

  ghost predicate Scored(k: nat, found: Found, lexical: seq<string>, indexed: seq<string>, neighbors: seq<string>) {
    forall id :: id != "" ==> ScoreOf(found.rrf, id) == Fused(k, lexical, indexed, neighbors, id)
  }

  lemma ScoreNext(k: nat, ids: seq<string>, next: string, id: string)
    ensures RankScore(k, ids + [next], id) == RankScore(k, ids, id) + if next == id then Share(k, |ids| + 1) else 0.0
    ensures NeighborScore(k, ids + [next], id) == NeighborScore(k, ids, id) + if next == id then Nudge(k) else 0.0
  {
    assert (ids + [next])[..|ids|] == ids;
  }

  lemma LexicalBump(k: nat, found: Found, lexical: seq<string>, next: string)
    requires Scored(k, found, lexical, [], [])
    ensures Scored(k, found.(rrf := Bump(found.rrf, next, Share(k, |lexical| + 1))), lexical + [next], [], [])
  {
    var rrf := Bump(found.rrf, next, Share(k, |lexical| + 1));
    forall id | id != ""
      ensures ScoreOf(rrf, id) == Fused(k, lexical + [next], [], [], id)
    {
      assert ScoreOf(found.rrf, id) == Fused(k, lexical, [], [], id);
      ScoreNext(k, lexical, next, id);
    }
  }

  lemma IndexedBump(k: nat, found: Found, lexical: seq<string>, indexed: seq<string>, next: string)
    requires Scored(k, found, lexical, indexed, [])
    ensures Scored(k, found.(rrf := Bump(found.rrf, next, Share(k, |indexed| + 1))), lexical, indexed + [next], [])
    ensures next == "" ==> Scored(k, found, lexical, indexed + [next], [])
  {
    var rrf := Bump(found.rrf, next, Share(k, |indexed| + 1));
    forall id | id != ""
      ensures ScoreOf(rrf, id) == Fused(k, lexical, indexed + [next], [], id)
      ensures next == "" ==> ScoreOf(found.rrf, id) == Fused(k, lexical, indexed + [next], [], id)
    {
      assert ScoreOf(found.rrf, id) == Fused(k, lexical, indexed, [], id);
      ScoreNext(k, indexed, next, id);
    }
  }

  lemma NeighborBump(k: nat, found: Found, lexical: seq<string>, indexed: seq<string>, neighbors: seq<string>,
      next: string)
    requires Scored(k, found, lexical, indexed, neighbors)
    ensures Scored(k, found.(rrf := Bump(found.rrf, next, Nudge(k))), lexical, indexed, neighbors + [next])
  {
    var rrf := Bump(found.rrf, next, Nudge(k));
    forall id | id != ""
      ensures ScoreOf(rrf, id) == Fused(k, lexical, indexed, neighbors + [next], id)
    {
      assert ScoreOf(found.rrf, id) == Fused(k, lexical, indexed, neighbors, id);
      ScoreNext(k, neighbors, next, id);
    }
  }

  function AddRecord(found: Found, r: StoredRecord): Found {
    if r.recordId in found.records then found
    else found.(order := found.order + [r.recordId], records := found.records[r.recordId := r])
  }

  lemma AddKeepsSane(p: Primitives, t: Tables, found: Found, r: StoredRecord)
    requires Sane(p, t, found)
    requires Live(t, r.recordId) && Decode(p, r.recordId, t.records[r.recordId]) == Ok(r)
    ensures Sane(p, t, AddRecord(found, r))
  {
  }

  /** The candidates are exactly the identifiers met so far, in the order they were met. */
  ghost predicate Met(found: Found, ids: seq<string>) { found.order == Unique(ids) }

  lemma MeetNext(p: Primitives, t: Tables, found: Found, ids: seq<string>, r: StoredRecord)
    requires Sane(p, t, found) && Met(found, ids)
    ensures Met(AddRecord(found, r), ids + [r.recordId])
    ensures r.recordId in found.records ==> Met(found, ids + [r.recordId])
  {
    assert (ids + [r.recordId])[..|ids|] == ids;
  }

  /** The identifiers an index answer can add: those of live records. */
  function Kept(t: Tables, ids: seq<string>): seq<string> {
    if ids == [] then []
    else
      var last := ids[|ids| - 1];
      Kept(t, ids[..|ids| - 1]) + (if last != "" && Live(t, last) then [last] else [])
  }

  lemma KeptNext(t: Tables, ids: seq<string>, next: string)
    ensures Kept(t, ids + [next]) == Kept(t, ids) + (if next != "" && Live(t, next) then [next] else [])
  {
    assert (ids + [next])[..|ids|] == ids;
  }

  function HitIds(hits: seq<Hit>): seq<string> {
    seq(|hits|, i requires 0 <= i < |hits| => hits[i].0.recordId)
  }

  /** One lexical hit. */
  function WithLexical(k: nat, found: Found, rank: nat, r: StoredRecord): Found
    requires rank > 0
  {
    AddRecord(found, r).(rrf := Bump(found.rrf, r.recordId, Share(k, rank)))
  }

  lemma LexicalStep(p: Primitives, t: Tables, k: nat, found: Found, ids: seq<string>, r: StoredRecord)
    requires Sane(p, t, found) && Scored(k, found, ids, [], []) && Met(found, ids)
    requires Live(t, r.recordId) && Decode(p, r.recordId, t.records[r.recordId]) == Ok(r)
    ensures var next := WithLexical(k, found, |ids| + 1, r);
            Sane(p, t, next) && Scored(k, next, ids + [r.recordId], [], []) && Met(next, ids + [r.recordId])
  {
    AddKeepsSane(p, t, found, r);
    MeetNext(p, t, found, ids, r);
    LexicalBump(k, AddRecord(found, r), ids, r.recordId);
  }

  lemma HitDecodes(p: Primitives, t: Tables, hits: seq<Hit>, i: nat)
    requires HitsLive(p, t, hits) && i < |hits|
    ensures var r := hits[i].0;
            Live(t, r.recordId) && Decode(p, r.recordId, t.records[r.recordId]) == Ok(r)
    ensures HitIds(hits)[..i + 1] == HitIds(hits)[..i] + [hits[i].0.recordId]
  {
  }

  method AddLexical(ghost p: Primitives, ghost t: Tables, k: nat, hits: seq<Hit>) returns (found: Found)
    requires HitsLive(p, t, hits)
    ensures Sane(p, t, found) && Scored(k, found, HitIds(hits), [], []) && Met(found, HitIds(hits))
  {
    found := Found([], map[], map[]);
    ghost var all := HitIds(hits);
    for i := 0 to |hits|
      invariant Sane(p, t, found) && Scored(k, found, all[..i], [], []) && Met(found, all[..i])
    {
      HitDecodes(p, t, hits, i);
      LexicalStep(p, t, k, found, all[..i], hits[i].0);
      found := WithLexical(k, found, i + 1, hits[i].0);
    }
    assert all[..|all|] == all;
  }

  /** One index hit: it scores, and a record not met before is added if the store has it. */
  function WithIndexed(k: nat, found: Found, rank: nat, id: string, fetched: Option<StoredRecord>): Found
    requires rank > 0
  {
    if id == "" then found
    else
      var scored := found.(rrf := Bump(found.rrf, id, Share(k, rank)));
      if fetched.None? then scored else AddRecord(scored, fetched.value)
  }

  /** The candidates after one index hit, scores aside. */
  lemma IndexedMeets(p: Primitives, t: Tables, found: Found, lexical: seq<string>, indexed: seq<string>, id: string,
      r: StoredRecord)
    requires Sane(p, t, found) && Met(found, lexical + Kept(t, indexed))
    requires id != "" && Live(t, id) && r.recordId == id && Decode(p, id, t.records[id]) == Ok(r)
    ensures Sane(p, t, AddRecord(found, r)) && Met(AddRecord(found, r), lexical + Kept(t, indexed + [id]))
  {
    AddKeepsSane(p, t, found, r);
    MeetNext(p, t, found, lexical + Kept(t, indexed), r);
    KeptNext(t, indexed, id);
    assert lexical + (Kept(t, indexed) + [id]) == lexical + Kept(t, indexed) + [id];
  }

  lemma IndexedStep(p: Primitives, t: Tables, k: nat, found: Found, lexical: seq<string>, indexed: seq<string>,
      id: string, fetched: Option<StoredRecord>)
    requires Sane(p, t, found) && Scored(k, found, lexical, indexed, []) && Met(found, lexical + Kept(t, indexed))
    requires id != "" ==> (fetched.Some? <==> Live(t, id))
    requires id != "" && Live(t, id) ==>
        fetched.value.recordId == id && Decode(p, id, t.records[id]) == Ok(fetched.value)
    ensures var next := WithIndexed(k, found, |indexed| + 1, id, fetched);
            Sane(p, t, next) && Scored(k, next, lexical, indexed + [id], []) &&
                Met(next, lexical + Kept(t, indexed + [id]))
  {
    IndexedBump(k, found, lexical, indexed, id);
    if id != "" && Live(t, id) {
      var scored := found.(rrf := Bump(found.rrf, id, Share(k, |indexed| + 1)));
      IndexedMeets(p, t, scored, lexical, indexed, id, fetched.value);
      SameScores(k, scored, fetched.value, lexical, indexed + [id]);
    } else {
      KeptNext(t, indexed, id);
      assert Kept(t, indexed) + [] == Kept(t, indexed);
    }
  }

  lemma SameScores(k: nat, found: Found, r: StoredRecord, lexical: seq<string>, indexed: seq<string>)
    requires Scored(k, found, lexical, indexed, [])
    ensures Scored(k, AddRecord(found, r), lexical, indexed, [])
  {
  }

  /** The record behind an index hit: the one met before, or what the store has. */
  method FetchHit(store: Store, unlocked: bool, found: Found, id: string) returns (r: Result<Option<StoredRecord>>)
    requires Sane(store.p, store.State(), found)
    ensures r.Err? ==> Fetch(store.p, store.State(), unlocked, id) == Err
    ensures r.Ok? && id != "" ==> (r.value.Some? <==> Live(store.State(), id))
    ensures r.Ok? && r.value.Some? ==>
        Live(store.State(), id) && r.value.value.recordId == id &&
        Decode(store.p, id, store.records[id]) == Ok(r.value.value)
  {
    if id == "" {
      return Ok(None);
    }
    if id in found.records {
      return Ok(Some(found.records[id]));
    }
    r := store.Get(unlocked, id);
  }

  /** Index hits score by rank even when the store no longer knows them; only live ones are kept. */
  method AddIndexed(store: Store, unlocked: bool, k: nat, before: Found, ghost lexical: seq<string>,
      indexed: seq<string>)
      returns (r: Result<Found>)
    requires Sane(store.p, store.State(), before) && Scored(k, before, lexical, [], []) && Met(before, lexical)
    ensures r.Ok? ==> Sane(store.p, store.State(), r.value) && Scored(k, r.value, lexical, indexed, [])
    ensures r.Ok? ==> Met(r.value, lexical + Kept(store.State(), indexed))
    ensures r.Err? ==> exists id :: id in indexed && Fetch(store.p, store.State(), unlocked, id) == Err
  {
    var found := before;
    ghost var p, t, sofar: seq<string> := store.p, store.State(), [];
    assert lexical + [] == lexical;
    for i := 0 to |indexed|
      invariant sofar == indexed[..i]
      invariant Sane(p, t, found) && Scored(k, found, lexical, sofar, []) && Met(found, lexical + Kept(t, sofar))
    {
      var id := indexed[i];
      var hit := FetchHit(store, unlocked, found, id);
      if hit.Err? {
        assert id in indexed;
        return Err;
      }
      var fetched := hit.value;
      IndexedStep(p, t, k, found, lexical, sofar, id, fetched);
      found := WithIndexed(k, found, i + 1, id, fetched);
      sofar := sofar + [id];
    }
    assert sofar == indexed;
    r := Ok(found);
  }

  /** A slice `[:limit]`, whose bound Python also accepts negative. */
  function Head<T>(s: seq<T>, limit: int): seq<T> {
    if limit >= 0 then Take(s, limit) else if |s| + limit > 0 then s[..|s| + limit] else []
  }

  /** `temporal_neighbors`: the live records created next to one, without that one. */
  ghost predicate Window(t: Tables, order: seq<string>, at: nat, radius: nat, window: seq<string>) {
    && Ordered(map id | id in LiveIds(t) :: Key(-t.records[id].createdAt, 0), order)
    && at < |order|
    && window == order[Max(0, at - radius)..at] + order[at + 1..Min(|order|, at + radius + 1)]
  }

  ghost predicate Neighborhood(t: Tables, id: string, radius: int, window: seq<string>) {
    if Between(0, 10, radius) == 0 || !Live(t, id) then window == []
    else exists order, at :: Window(t, order, at, Between(0, 10, radius), window) && order[at] == id
  }

  method TemporalNeighbors(store: Store, unlocked: bool, id: string, radius: int)
      returns (r: Result<seq<StoredRecord>>, ghost window: seq<string>)
    ensures r.Ok? ==>
        Neighborhood(store.State(), id, radius, window) && Decoded(store.p, store.State(), window, r.value)
    ensures Readable(store.p, store.State()) && unlocked ==> r.Ok?
  {
    var t, reach := store.State(), Between(0, 10, radius);
    window := [];
    if reach == 0 || id !in t.records || t.records[id].deleted {
      return Ok([]), [];
    }
    var created := map other | other in LiveIds(t) :: Key(-t.records[other].createdAt, 0);
    var order := OrderBy(created);
    assert id in created && id in order;
    var at := IndexOf(order, id);
    var ids := order[Max(0, at - reach)..at] + order[at + 1..Min(|order|, at + reach + 1)];
    assert Window(t, order, at, reach, ids);
    forall other | other in ids
      ensures Live(t, other)
    {
      assert other in order && other in created;
    }
    window := ids;
    r := DecodeAll(store, unlocked, ids);
  }

  method IndexOf(order: seq<string>, id: string) returns (at: nat)
    requires id in order
    ensures at < |order| && order[at] == id
  {
    at := 0;
    while order[at] != id
      invariant at < |order| && id in order[at..]
      decreases |order| - at
    {
      at := at + 1;
    }
  }

  ghost predicate Decoded(p: Primitives, t: Tables, ids: seq<string>, records: seq<StoredRecord>) {
    && |records| == |ids|
    && forall i :: 0 <= i < |ids| ==> Live(t, ids[i]) && Decode(p, ids[i], t.records[ids[i]]) == Ok(records[i])
  }

  method DecodeAll(store: Store, unlocked: bool, ids: seq<string>) returns (r: Result<seq<StoredRecord>>)
    requires forall id :: id in ids ==> Live(store.State(), id)
    ensures r.Ok? ==> Decoded(store.p, store.State(), ids, r.value)
    ensures Readable(store.p, store.State()) && unlocked ==> r.Ok?
  {
    var records: seq<StoredRecord> := [];
    for i := 0 to |ids|
      invariant Decoded(store.p, store.State(), ids[..i], records)
    {
      assert ids[i] in ids;
      var fetched := store.Get(unlocked, ids[i]);
      if fetched.Err? {
        return Err;
      }
      records := records + [fetched.value.value];
    }
    assert ids[..|ids|] == ids;
    r := Ok(records);
  }

  /** One temporal neighbour. */
  function WithNeighbor(k: nat, found: Found, r: StoredRecord): Found {
    AddRecord(found, r).(rrf := Bump(found.rrf, r.recordId, Nudge(k)))
  }

  /** `base` are the identifiers met before any neighbour. */
  lemma NeighborStep(p: Primitives, t: Tables, k: nat, found: Found, lexical: seq<string>, indexed: seq<string>,
      neighbors: seq<string>, base: seq<string>, r: StoredRecord)
    requires Sane(p, t, found) && Scored(k, found, lexical, indexed, neighbors) && Met(found, base + neighbors)
    requires Live(t, r.recordId) && Decode(p, r.recordId, t.records[r.recordId]) == Ok(r)
    ensures var next := WithNeighbor(k, found, r);
            Sane(p, t, next) && Scored(k, next, lexical, indexed, neighbors + [r.recordId]) &&
                Met(next, base + (neighbors + [r.recordId]))
  {
    AddKeepsSane(p, t, found, r);
    MeetNext(p, t, found, base + neighbors, r);
    assert base + (neighbors + [r.recordId]) == base + neighbors + [r.recordId];
    NeighborBump(k, AddRecord(found, r), lexical, indexed, neighbors, r.recordId);
  }

  lemma NeighborDecodes(p: Primitives, t: Tables, earlier: seq<string>, ids: seq<string>,
      neighbors: seq<StoredRecord>, i: nat)
    requires Decoded(p, t, ids, neighbors) && i < |neighbors|
    ensures var r := neighbors[i];
            Live(t, r.recordId) && Decode(p, r.recordId, t.records[r.recordId]) == Ok(r)
    ensures earlier + ids[..i + 1] == earlier + ids[..i] + [neighbors[i].recordId]
  {
  }

  method AddNeighbors(ghost p: Primitives, ghost t: Tables, k: nat, before: Found, ghost lexical: seq<string>,
      ghost indexed: seq<string>, ghost earlier: seq<string>, neighbors: seq<StoredRecord>, ghost ids: seq<string>,
      ghost base: seq<string>)
      returns (found: Found)
    requires Sane(p, t, before) && Scored(k, before, lexical, indexed, earlier) && Met(before, base + earlier)
    requires Decoded(p, t, ids, neighbors)
    ensures Sane(p, t, found) && Scored(k, found, lexical, indexed, earlier + ids) && Met(found, base + (earlier + ids))
  {
    found := before;
    ghost var sofar := earlier;
    for i := 0 to |neighbors|
      invariant sofar == earlier + ids[..i]
      invariant Sane(p, t, found) && Scored(k, found, lexical, indexed, sofar) && Met(found, base + sofar)
    {
      var r := neighbors[i];
      NeighborDecodes(p, t, earlier, ids, neighbors, i);
      NeighborStep(p, t, k, found, lexical, indexed, sofar, base, r);
      found := WithNeighbor(k, found, r);
      sofar := sofar + [r.recordId];
    }
    assert earlier + ids[..|neighbors|] == earlier + ids;
  }

  function Flat(windows: seq<seq<string>>): seq<string> {
    if windows == [] then [] else Flat(windows[..|windows| - 1]) + windows[|windows| - 1]
  }

  /** One temporal neighbourhood for every seed. */
  ghost predicate Windows(t: Tables, seeds: seq<string>, radius: int, windows: seq<seq<string>>) {
    |windows| == |seeds| && forall i :: 0 <= i < |seeds| ==> Neighborhood(t, seeds[i], radius, windows[i])
  }

  /** Every record among the first ones found pulls in its temporal neighbours. */
  method Expand(store: Store, unlocked: bool, k: nat, before: Found, ghost lexical: seq<string>,
      ghost indexed: seq<string>, ghost base: seq<string>, limit: int, radius: int)
      returns (r: Result<Found>, ghost windows: seq<seq<string>>)
    requires Sane(store.p, store.State(), before) && Scored(k, before, lexical, indexed, []) && Met(before, base)
    ensures r.Ok? ==> Sane(store.p, store.State(), r.value) && Scored(k, r.value, lexical, indexed, Flat(windows))
    ensures r.Ok? ==>
        Windows(store.State(), Head(Unique(base), limit), radius, windows) && Met(r.value, base + Flat(windows))
    ensures Readable(store.p, store.State()) && unlocked ==> r.Ok?
  {
    var seeds := Head(before.order, limit);
    var found := before;
    windows := [];
    assert base + [] == base;
    for i := 0 to |seeds|
      invariant Sane(store.p, store.State(), found) && Scored(k, found, lexical, indexed, Flat(windows))
      invariant Windows(store.State(), seeds[..i], radius, windows) && Met(found, base + Flat(windows))
    {
      ghost var window;
      var around;
      around, window := TemporalNeighbors(store, unlocked, seeds[i], radius);
      if around.Err? {
        return Err, windows;
      }
      found :=
          AddNeighbors(store.p, store.State(), k, found, lexical, indexed, Flat(windows), around.value, window, base);
      assert (windows + [window])[..|windows|] == windows;
      windows := windows + [window];
    }
    assert seeds[..|seeds|] == seeds;
    r := Ok(found);
  }
}
