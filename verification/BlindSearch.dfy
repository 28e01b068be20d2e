/** Searching by blinded tokens, and why it answers like a scan of the decrypted records. */
module BlindSearch {
  import opened Prelude
  import opened Records
  import opened EncryptedStore
  import opened StoreInvariant

  predicate Wanted(t: Tables, id: string, recordType: string) {
    Live(t, id) && (recordType == "" || t.records[id].recordType == recordType)
  }

  function Hashes(p: Primitives, words: set<string>): set<string> { set word | word in words :: p.blind(word) }

  /** The join of the token table with the query's hashes, for one record. */
  function Joined(t: Tables, hashes: set<string>, id: string): set<string> {
    set hash | hash in hashes && (hash, id) in t.tokens
  }

  function BlindCount(t: Tables, hashes: set<string>, id: string): nat { |Joined(t, hashes, id)| }

  /** How many query tokens the decrypted record contains. */
  ghost function PlainCount(p: Primitives, t: Tables, words: set<string>, id: string): nat
    requires Readable(p, t) && id in t.records
  {
    |words * RecordTokens(p, RecordAt(p, t, id))|
  }

  /** GROUP BY record: the match count and update time of each record with a match. */
  function BlindHits(t: Tables, hashes: set<string>, recordType: string): map<string, Key> {
    map id | id in LiveIds(t) && Wanted(t, id, recordType) && BlindCount(t, hashes, id) > 0 :: BlindKey(t, hashes, id)
  }

  function BlindKey(t: Tables, hashes: set<string>, id: string): Key
    requires id in t.records
  {
    Key(BlindCount(t, hashes, id), t.records[id].updatedAt)
  }

  ghost function PlainKey(p: Primitives, t: Tables, words: set<string>, id: string): Key
    requires Readable(p, t) && id in t.records
  {
    Key(PlainCount(p, t, words, id), t.records[id].updatedAt)
  }

  /** `order` ranks the records a scan would find: each one that shares a token with the
      query, most shared tokens first, then most recently updated. */
  ghost predicate PlainRanking(p: Primitives, t: Tables, words: set<string>, recordType: string, order: seq<string>)
    requires Readable(p, t)
  {
    && Distinct(order)
    && (forall id :: id in order <==> Wanted(t, id, recordType) && PlainCount(p, t, words, id) > 0)
    && (forall i :: 0 <= i < |order| ==> order[i] in t.records)
    && forall i, j :: 0 <= i < j < |order| ==> PlainKey(p, t, words, order[i]).AtLeast(PlainKey(p, t, words, order[j]))
  }

  /** The keyed hash does not confuse a query token with another token in play; collisions
      between tokens that are not compared do no harm. */
  ghost predicate NoClash(p: Primitives, t: Tables, words: set<string>)
    requires Readable(p, t)
  {
    && (forall a, b :: a in words && b in words && p.blind(a) == p.blind(b) ==> a == b)
    && (forall id, a, b ::
          id in LiveIds(t) && a in words && b in RecordTokens(p, RecordAt(p, t, id)) && p.blind(a) == p.blind(b) ==>
              a == b)
  }

  lemma {:induction false} ImageSize(p: Primitives, words: set<string>)
    requires forall a, b :: a in words && b in words && p.blind(a) == p.blind(b) ==> a == b
    ensures |Hashes(p, words)| == |words|
  {
    if words != {} {
      var w :| w in words;
      var rest := words - {w};
      ImageSize(p, rest);
      assert p.blind(w) !in Hashes(p, rest);
      assert Hashes(p, words) == Hashes(p, rest) + {p.blind(w)};
    }
  }

  /** For one record: joining on hashes counts the shared tokens. */
  lemma JoinCounts(p: Primitives, t: Tables, words: set<string>, own: set<string>, id: string)
    requires forall hash :: (hash, id) in t.tokens <==> exists word :: word in own && p.blind(word) == hash
    requires forall a, b :: a in words && b in words + own && p.blind(a) == p.blind(b) ==> a == b
    ensures BlindCount(t, Hashes(p, words), id) == |words * own|
  {
    var shared := words * own;
    forall hash
      ensures hash in Joined(t, Hashes(p, words), id) <==> hash in Hashes(p, shared)
    {
      if hash in Joined(t, Hashes(p, words), id) {
        var a :| a in words && p.blind(a) == hash;
        var b :| b in own && p.blind(b) == hash;
        assert a in shared;
      }
    }
    assert Joined(t, Hashes(p, words), id) == Hashes(p, shared);
    ImageSize(p, shared);
  }

  /** On a healthy store the blind index counts, record by record, what the scan counts. */
  lemma BlindEqualsPlain(p: Primitives, t: Tables, words: set<string>)
    requires Readable(p, t) && IndexExact(p, t) && NoClash(p, t, words)
    ensures forall id :: id in LiveIds(t) ==> BlindCount(t, Hashes(p, words), id) == PlainCount(p, t, words, id)
  {
    forall id | id in LiveIds(t)
      ensures BlindCount(t, Hashes(p, words), id) == PlainCount(p, t, words, id)
    {
      JoinCounts(p, t, words, RecordTokens(p, RecordAt(p, t, id)), id);
    }
  }

  lemma RankedAlike(p: Primitives, t: Tables, words: set<string>, recordType: string, order: seq<string>)
    requires Readable(p, t)
    requires forall id :: id in LiveIds(t) ==> BlindCount(t, Hashes(p, words), id) == PlainCount(p, t, words, id)
    requires Ordered(BlindHits(t, Hashes(p, words), recordType), order)
    ensures PlainRanking(p, t, words, recordType, order)
  {
    var hashes := Hashes(p, words);
    forall id
      ensures id in order <==> Wanted(t, id, recordType) && PlainCount(p, t, words, id) > 0
    {
      assert id in order <==> id in BlindHits(t, hashes, recordType);
      assert Live(t, id) <==> id in LiveIds(t);
    }
    forall i | 0 <= i < |order|
      ensures order[i] in t.records
    {
      assert order[i] in order;
    }
    forall i, j | 0 <= i < j < |order|
      ensures PlainKey(p, t, words, order[i]).AtLeast(PlainKey(p, t, words, order[j]))
    {
      assert order[i] in order && order[j] in order;
    }
  }

  lemma {:induction false} WordsOfJoin(p: Primitives, parts: seq<string>, word: string)
    requires p.Splits() && parts != []
    ensures word in p.tokens(Join(parts)) <==> exists i :: 0 <= i < |parts| && word in p.tokens(parts[i])
  {
    if |parts| > 1 {
      WordsOfJoin(p, parts[1..], word);
      assert Join(parts) == parts[0] + " " + Join(parts[1..]);
      assert forall i :: 1 <= i < |parts| ==> parts[i] == parts[1..][i - 1];
    }
  }

  /** A record is found by the words of its type, its labels, its title and summary, its tags and
      its metadata, and by no others. */
  lemma FoundByWordsOf(p: Primitives, r: StoredRecord, word: string)
    requires p.Splits()
    ensures word in RecordTokens(p, r) <==>
      || word in p.tokens(r.recordType) || word in p.tokens(r.truthLabel) || word in p.tokens(r.validationStatus)
      || word in p.tokens(r.clear.title) || word in p.tokens(r.clear.summary)
      || (exists i :: 0 <= i < |r.clear.tags| && word in p.tokens(r.clear.tags[i]))
      || word in p.tokens(p.dump(r.clear.metadata))
  {
    var c := r.clear;
    var parts := [r.recordType, r.truthLabel, r.validationStatus, c.title, c.summary] + c.tags + [p.dump(c.metadata)];
    WordsOfJoin(p, parts, word);
    assert parts[0] == r.recordType && parts[1] == r.truthLabel && parts[2] == r.validationStatus;
    assert parts[3] == c.title && parts[4] == c.summary && parts[|parts| - 1] == p.dump(c.metadata);
    assert forall i :: 0 <= i < |c.tags| ==> parts[5 + i] == c.tags[i];
    assert forall i :: 5 <= i < |parts| - 1 ==> parts[i] == c.tags[i - 5];
  }

  type Hit = (StoredRecord, real)

  /** A record as the answer shows it: decrypted, with its share of the query's tokens. */
  predicate ShownAs(p: Primitives, t: Tables, id: string, count: nat, size: nat, hit: Hit)
    requires id in t.records
  {
    Decode(p, id, t.records[id]) == Ok(hit.0) && hit.1 == count as real / Max(1, size) as real
  }

  /** The answer a scan gives: the ranking cut at the limit, each record with its share of
      the query's tokens. */
  ghost predicate IsPlainScan(p: Primitives, t: Tables, words: set<string>, limit: int, recordType: string,
      hits: seq<Hit>)
    requires Readable(p, t)
  {
    exists order :: PlainRanking(p, t, words, recordType, order) &&
        ListsScan(p, t, words, Take(order, Between(1, 200, limit)), hits)
  }

  ghost predicate ListsScan(p: Primitives, t: Tables, words: set<string>, ids: seq<string>, hits: seq<Hit>)
    requires Readable(p, t)
  {
    && |hits| == |ids|
    && forall i :: 0 <= i < |ids| ==>
         ids[i] in t.records && ShownAs(p, t, ids[i], PlainCount(p, t, words, ids[i]), |words|, hits[i])
  }

  // ---- the answer, told record by record ----

  function Shared(p: Primitives, words: set<string>, r: StoredRecord): nat { |words * RecordTokens(p, r)| }

  /** A live record that decrypts, is of the type asked for, if any, and shares a word with the query. */
  predicate Matches(p: Primitives, t: Tables, words: set<string>, recordType: string, r: StoredRecord) {
    && r.recordId in t.records && !t.records[r.recordId].deleted
    && Decode(p, r.recordId, t.records[r.recordId]) == Ok(r)
    && (recordType == "" || r.recordType == recordType) && Shared(p, words, r) > 0
  }

  /** More shared words, or as many and a change at least as recent. */
  predicate Outranks(p: Primitives, words: set<string>, a: StoredRecord, b: StoredRecord) {
    Shared(p, words, a) > Shared(p, words, b) ||
    (Shared(p, words, a) == Shared(p, words, b) && a.updatedAt >= b.updatedAt)
  }

  predicate IsShare(share: real, count: nat, size: nat) { share * size as real == count as real }

  /** The hits are matches, each once, best first, with the share of the query they contain; a
      match is left out only when the limit is reached, and then outranks none of them. */
  ghost predicate Finds(p: Primitives, t: Tables, words: set<string>, limit: int, recordType: string, hits: seq<Hit>) {
    && |hits| <= Between(1, 200, limit)
    && (forall i :: 0 <= i < |hits| ==> Matches(p, t, words, recordType, hits[i].0))
    && (forall i :: 0 <= i < |hits| ==> IsShare(hits[i].1, Shared(p, words, hits[i].0), |words|))
    && (forall i, j :: 0 <= i < j < |hits| ==>
          hits[i].0.recordId != hits[j].0.recordId && Outranks(p, words, hits[i].0, hits[j].0))
    && forall r :: Matches(p, t, words, recordType, r) ==>
        (exists i :: 0 <= i < |hits| && hits[i].0 == r) ||
        (|hits| == Between(1, 200, limit) && forall i :: 0 <= i < |hits| ==> Outranks(p, words, hits[i].0, r))
  }

  /** What a position of the ranking says of the record there. */
  lemma RankedRecord(p: Primitives, t: Tables, words: set<string>, recordType: string, order: seq<string>, i: nat)
    requires Readable(p, t) && PlainRanking(p, t, words, recordType, order) && i < |order|
    ensures order[i] in t.records
    ensures var r := RecordAt(p, t, order[i]);
      Matches(p, t, words, recordType, r) && Key(Shared(p, words, r), r.updatedAt) == PlainKey(p, t, words, order[i])
  {
    assert order[i] in order;
  }

  lemma RanksOutrank(p: Primitives, t: Tables, words: set<string>, recordType: string, order: seq<string>,
      i: nat, j: nat)
    requires Readable(p, t) && PlainRanking(p, t, words, recordType, order) && i < j < |order|
    ensures order[i] in t.records && order[j] in t.records && order[i] != order[j]
    ensures Outranks(p, words, RecordAt(p, t, order[i]), RecordAt(p, t, order[j]))
  {
    RankedRecord(p, t, words, recordType, order, i);
    RankedRecord(p, t, words, recordType, order, j);
    assert PlainKey(p, t, words, order[i]).AtLeast(PlainKey(p, t, words, order[j]));
  }

  lemma ListedShare(p: Primitives, t: Tables, words: set<string>, ids: seq<string>, hits: seq<Hit>, i: nat)
    requires Readable(p, t) && ListsScan(p, t, words, ids, hits) && i < |ids| && words != {}
    ensures i < |hits| && ids[i] in t.records && hits[i].0 == RecordAt(p, t, ids[i])
    ensures IsShare(hits[i].1, Shared(p, words, hits[i].0), |words|)
  {
    ShownShare(p, t, ids[i], PlainCount(p, t, words, ids[i]), |words|, hits[i]);
  }

  lemma ShownShare(p: Primitives, t: Tables, id: string, count: nat, size: nat, hit: Hit)
    requires id in t.records && ShownAs(p, t, id, count, size, hit) && size > 0
    ensures Decode(p, id, t.records[id]) == Ok(hit.0) && IsShare(hit.1, count, size)
  {
    ShareTimes(count, size, hit.1);
  }

  lemma ShareTimes(count: nat, size: nat, share: real)
    requires size > 0 && share == count as real / Max(1, size) as real
    ensures IsShare(share, count, size)
  {
  }

  lemma MatchRanked(p: Primitives, t: Tables, words: set<string>, recordType: string, order: seq<string>,
      r: StoredRecord) returns (k: nat)
    requires Readable(p, t) && PlainRanking(p, t, words, recordType, order) && Matches(p, t, words, recordType, r)
    ensures k < |order| && order[k] == r.recordId && r == RecordAt(p, t, r.recordId)
  {
    assert r == RecordAt(p, t, r.recordId) && PlainCount(p, t, words, r.recordId) == Shared(p, words, r);
    assert Wanted(t, r.recordId, recordType);
    assert r.recordId in order;
    k :| 0 <= k < |order| && order[k] == r.recordId;
  }

  /** The answer a scan gives, spelled out. */
  lemma ScanFinds(p: Primitives, t: Tables, words: set<string>, limit: int, recordType: string, hits: seq<Hit>)
    requires Readable(p, t) && words != {} && IsPlainScan(p, t, words, limit, recordType, hits)
    ensures Finds(p, t, words, limit, recordType, hits)
  {
    var n := Between(1, 200, limit);
    var order :| PlainRanking(p, t, words, recordType, order) && ListsScan(p, t, words, Take(order, n), hits);
    CutFinds(p, t, words, n, recordType, order, hits);
    assert n == Between(1, 200, limit);
  }

  lemma CutFinds(p: Primitives, t: Tables, words: set<string>, n: nat, recordType: string, order: seq<string>,
      hits: seq<Hit>)
    requires Readable(p, t) && words != {} && PlainRanking(p, t, words, recordType, order) && 1 <= n <= 200
    requires ListsScan(p, t, words, Take(order, n), hits)
    ensures Finds(p, t, words, n, recordType, hits)
  {
    var ids := Take(order, n);
    assert |hits| == |ids| && forall i :: 0 <= i < |ids| ==> ids[i] == order[i];
    forall i | 0 <= i < |hits|
      ensures Matches(p, t, words, recordType, hits[i].0)
      ensures IsShare(hits[i].1, Shared(p, words, hits[i].0), |words|)
    {
      ListedShare(p, t, words, ids, hits, i);
      RankedRecord(p, t, words, recordType, order, i);
    }
    forall i, j | 0 <= i < j < |hits|
      ensures hits[i].0.recordId != hits[j].0.recordId && Outranks(p, words, hits[i].0, hits[j].0)
    {
      ListedShare(p, t, words, ids, hits, i);
      ListedShare(p, t, words, ids, hits, j);
      RanksOutrank(p, t, words, recordType, order, i, j);
    }
    forall r | Matches(p, t, words, recordType, r)
      ensures (exists i :: 0 <= i < |hits| && hits[i].0 == r) ||
        (|hits| == n && forall i :: 0 <= i < |hits| ==> Outranks(p, words, hits[i].0, r))
    {
      MatchFound(p, t, words, n, recordType, order, hits, r);
    }
  }

  lemma MatchFound(p: Primitives, t: Tables, words: set<string>, n: nat, recordType: string, order: seq<string>,
      hits: seq<Hit>, r: StoredRecord)
    requires Readable(p, t) && words != {} && PlainRanking(p, t, words, recordType, order) && 1 <= n <= 200
    requires ListsScan(p, t, words, Take(order, n), hits) && Matches(p, t, words, recordType, r)
    ensures (exists i :: 0 <= i < |hits| && hits[i].0 == r) ||
      (|hits| == n && forall i :: 0 <= i < |hits| ==> Outranks(p, words, hits[i].0, r))
  {
    var k := MatchRanked(p, t, words, recordType, order, r);
    if k < n {
      ListedShare(p, t, words, Take(order, n), hits, k);
      assert hits[k].0 == r;
    } else {
      forall i | 0 <= i < |hits|
        ensures Outranks(p, words, hits[i].0, r)
      {
        ListedShare(p, t, words, Take(order, n), hits, i);
        RanksOutrank(p, t, words, recordType, order, i, k);
      }
    }
  }

  /** Whatever the token table holds, a hit is a live record that decrypts. */
  ghost predicate HitsLive(p: Primitives, t: Tables, hits: seq<Hit>) {
    forall i :: 0 <= i < |hits| ==>
      Live(t, hits[i].0.recordId) && Decode(p, hits[i].0.recordId, t.records[hits[i].0.recordId]) == Ok(hits[i].0)
  }

  method Search(store: Store, unlocked: bool, query: string, limit: int, recordType: string)
      returns (r: Result<seq<Hit>>)
    ensures !unlocked ==> r == Err
    ensures unlocked && store.p.tokens(query) == {} ==> r == Ok([])
    ensures unlocked && Readable(store.p, store.State()) ==> r.Ok?
    ensures r.Ok? ==> HitsLive(store.p, store.State(), r.value)
    ensures var words := store.p.tokens(query);
      unlocked && words != {} && Healthy(store.p, store.State()) && NoClash(store.p, store.State(), words) ==>
        r.Ok? && IsPlainScan(store.p, store.State(), words, limit, recordType, r.value) &&
        Finds(store.p, store.State(), words, limit, recordType, r.value)
  {
    if !unlocked {
      return Err;
    }
    var p, t := store.p, store.State();
    var words := p.tokens(query);
    if words == {} {
      return Ok([]);
    }
    var counts := BlindHits(t, Hashes(p, words), recordType);
    var order := OrderBy(counts);
    var ids := Take(order, Between(1, 200, limit));
    FirstIn(counts, order, ids);
    r := Render(p, t, Hashes(p, words), ids, |words|);
    RenderedLive(p, t, Hashes(p, words), ids, |words|, r);
    if Healthy(p, t) && NoClash(p, t, words) {
      BlindEqualsPlain(p, t, words);
      RankedAlike(p, t, words, recordType, order);
      ScannedAlike(p, t, words, ids, r);
      ScanFinds(p, t, words, limit, recordType, r.value);
    }
  }

  lemma FirstIn(counts: map<string, Key>, order: seq<string>, ids: seq<string>)
    requires Ordered(counts, order) && ids <= order
    ensures forall id :: id in ids ==> id in counts
  {
    assert forall id :: id in ids ==> id in order;
  }

  lemma ScannedAlike(p: Primitives, t: Tables, words: set<string>, ids: seq<string>, r: Result<seq<Hit>>)
    requires Readable(p, t)
    requires forall id :: id in LiveIds(t) ==> BlindCount(t, Hashes(p, words), id) == PlainCount(p, t, words, id)
    requires forall id :: id in ids ==> id in LiveIds(t)
    requires Rendered(p, t, Hashes(p, words), ids, |words|, r)
    ensures r.Ok? && ListsScan(p, t, words, ids, r.value)
  {
    if r.Ok? {
      forall i | 0 <= i < |ids|
        ensures ids[i] in t.records && ShownAs(p, t, ids[i], PlainCount(p, t, words, ids[i]), |words|, r.value[i])
      {
        assert ids[i] in ids;
      }
    }
  }

  /** Either every listed row is shown with its blind count, or one does not authenticate. */
  ghost predicate Rendered(p: Primitives, t: Tables, hashes: set<string>, ids: seq<string>, size: nat,
      r: Result<seq<Hit>>)
    requires forall id :: id in ids ==> id in LiveIds(t)
  {
    match r
    case Ok(hits) =>
      && |hits| == |ids|
      && forall i :: 0 <= i < |ids| ==>
          ids[i] in t.records && ShownAs(p, t, ids[i], BlindCount(t, hashes, ids[i]), size, hits[i])
    case Err => exists id :: id in ids && id in t.records && Decode(p, id, t.records[id]) == Err
  }

  lemma RenderedLive(p: Primitives, t: Tables, hashes: set<string>, ids: seq<string>, size: nat, r: Result<seq<Hit>>)
    requires forall id :: id in ids ==> id in LiveIds(t)
    requires Rendered(p, t, hashes, ids, size, r)
    ensures r.Ok? ==> HitsLive(p, t, r.value)
    ensures Readable(p, t) ==> r.Ok?
  {
    if r.Ok? {
      forall i | 0 <= i < |ids|
        ensures Live(t, ids[i]) && r.value[i].0.recordId == ids[i]
      {
        assert ids[i] in ids && ShownAs(p, t, ids[i], BlindCount(t, hashes, ids[i]), size, r.value[i]);
      }
    }
  }

  /** Decrypt the rows found, in order; one that does not authenticate fails the search. */
  method Render(p: Primitives, t: Tables, hashes: set<string>, ids: seq<string>, size: nat)
      returns (r: Result<seq<Hit>>)
    requires forall id :: id in ids ==> id in LiveIds(t)
    ensures Rendered(p, t, hashes, ids, size, r)
  {
    var hits: seq<Hit> := [];
    for i := 0 to |ids|
      invariant |hits| == i
      invariant forall j :: 0 <= j < i ==>
          ids[j] in t.records && ShownAs(p, t, ids[j], BlindCount(t, hashes, ids[j]), size, hits[j])
    {
      assert ids[i] in ids;
      var decoded := Decode(p, ids[i], t.records[ids[i]]);
      if decoded.Err? {
        return Err;
      }
      hits := hits + [(decoded.value, BlindCount(t, hashes, ids[i]) as real / Max(1, size) as real)];
    }
    r := Ok(hits);
  }
}
