/** What fused retrieval pays for a rank and for a neighbour, what it takes off for resemblance,
    and which records are neighbours in time. */
module RetrievalLaws {
  import opened Prelude
  import opened Records
  import opened EncryptedStore
  import BlindSearch
  import opened Retrieval
  import opened Diversity

  // ---- candidates ----

  lemma {:induction false} KeptAreLive(t: Tables, ids: seq<string>, id: string)
    ensures id in Kept(t, ids) <==> id in ids && id != "" && id in t.records && !t.records[id].deleted
  {
    if ids != [] {
      var n := |ids| - 1;
      assert ids == ids[..n] + [ids[n]];
      KeptAreLive(t, ids[..n], id);
    }
  }

  lemma {:induction false} FlatHolds(windows: seq<seq<string>>, id: string)
    ensures id in Flat(windows) <==> exists i :: 0 <= i < |windows| && id in windows[i]
  {
    if windows != [] {
      var n := |windows| - 1;
      FlatHolds(windows[..n], id);
      assert forall i :: 0 <= i < n ==> windows[..n][i] == windows[i];
    }
  }

  /** What an answer is picked from: what the blind search found, the live records the index
      named, and the neighbours of the first of these; nothing else, whatever the index named. */
  lemma CandidatesAre(p: Primitives, t: Tables, k: nat, hits: seq<BlindSearch.Hit>, indexed: seq<string>, limit: int,
      radius: int, windows: seq<seq<string>>, found: Found, id: string)
    requires Gathered(p, t, k, hits, indexed, limit, radius, windows, found)
    ensures id in found.order <==>
      || (exists i :: 0 <= i < |hits| && hits[i].0.recordId == id)
      || (id in indexed && id != "" && id in t.records && !t.records[id].deleted)
      || exists i :: 0 <= i < |windows| && id in windows[i]
  {
    KeptAreLive(t, indexed, id);
    FlatHolds(windows, id);
    UniqueElements(HitIds(hits) + Kept(t, indexed) + Flat(windows));
    assert forall i :: 0 <= i < |hits| ==> HitIds(hits)[i] == hits[i].0.recordId;
  }

  // ---- ranks ----

  /** In a list without repeats the i-th earns one over k + i + 1, and who is not listed nothing. */
  lemma {:induction false} RankEarns(k: nat, ids: seq<string>, id: string)
    requires Distinct(ids)
    ensures forall i :: 0 <= i < |ids| && ids[i] == id ==> RankScore(k, ids, id) == 1.0 / (k + i + 1) as real
    ensures id !in ids ==> RankScore(k, ids, id) == 0.0
  {
    if ids != [] {
      var n := |ids| - 1;
      assert ids == ids[..n] + [ids[n]];
      RankEarns(k, ids[..n], id);
      if ids[n] == id {
        assert id !in ids[..n];
      }
    }
  }

  /** A better rank earns strictly more. */
  lemma BetterRankEarnsMore(k: nat, ids: seq<string>, i: nat, j: nat)
    requires Distinct(ids) && i < j < |ids|
    ensures RankScore(k, ids, ids[i]) > RankScore(k, ids, ids[j]) > 0.0
  {
    RankEarns(k, ids, ids[i]);
    RankEarns(k, ids, ids[j]);
    Inverse((k + i + 1) as real, (k + j + 1) as real);
  }

  lemma Inverse(a: real, b: real)
    requires 0.0 < a < b
    ensures 1.0 / a > 1.0 / b > 0.0
  {
    assert 1.0 / a - 1.0 / b == (b - a) / (a * b);
  }

  lemma {:induction false} NeighborPaid(k: nat, ids: seq<string>, id: string)
    ensures NeighborScore(k, ids, id) == Times(Nudge(k), multiset(ids)[id])
  {
    if ids != [] {
      var n := |ids| - 1;
      assert ids == ids[..n] + [ids[n]];
      NeighborPaid(k, ids[..n], id);
    }
  }

  /** Each appearance as a neighbour earns 0.15 over k + 1. */
  lemma NeighborEarns(k: nat, ids: seq<string>, id: string)
    ensures NeighborScore(k, ids, id) == multiset(ids)[id] as real * (0.15 / (k + 1) as real)
  {
    NeighborPaid(k, ids, id);
    TimesIs(Nudge(k), multiset(ids)[id]);
  }

  /** The fused score of a blind hit: a share for its place in each list, if it is in both, and
      the neighbours' payments. */
  lemma FusedEarns(k: nat, lexical: seq<string>, indexed: seq<string>, neighbors: seq<string>, id: string, i: nat)
    requires Distinct(lexical) && Distinct(indexed) && i < |lexical| && lexical[i] == id
    ensures var fused := Fused(k, lexical, indexed, neighbors, id);
      var paid := 1.0 / (k + i + 1) as real + multiset(neighbors)[id] as real * (0.15 / (k + 1) as real);
      && (id !in indexed ==> fused == paid)
      && (forall j :: 0 <= j < |indexed| && indexed[j] == id ==> fused == paid + 1.0 / (k + j + 1) as real)
  {
    RankEarns(k, lexical, id);
    RankEarns(k, indexed, id);
    NeighborEarns(k, neighbors, id);
  }

  // ---- resemblance ----

  lemma {:induction false} CosineSymmetric(a: seq<real>, b: seq<real>)
    ensures Cosine(a, b) == Cosine(b, a)
  {
    if a != [] && b != [] {
      CosineSymmetric(a[1..], b[1..]);
    }
  }

  /** A sum of products, term by term. */
  lemma {:induction false} CosineNext(a: seq<real>, b: seq<real>, x: real, y: real)
    requires |a| == |b|
    ensures Cosine(a + [x], b + [y]) == Cosine(a, b) + x * y
  {
    if a == [] {
      assert a + [x] == [x] && b + [y] == [y] && [x][1..] == [];
    } else {
      assert (a + [x])[1..] == a[1..] + [x] && (b + [y])[1..] == b[1..] + [y];
      CosineNext(a[1..], b[1..], x, y);
    }
  }

  /** The similarity is the largest cosine with a pick. */
  lemma {:induction false} SimilarityIsLargest(scene: Scene, id: string, chosen: seq<string>)
    requires chosen != []
    ensures forall c :: c in chosen ==> scene.Similarity(id, chosen) >= Cosine(scene.Vector(id), scene.Vector(c))
    ensures exists c :: c in chosen && scene.Similarity(id, chosen) == Cosine(scene.Vector(id), scene.Vector(c))
  {
    var n := |chosen| - 1;
    assert chosen == chosen[..n] + [chosen[n]] && chosen[n] in chosen;
    if n > 0 {
      SimilarityIsLargest(scene, id, chosen[..n]);
    }
  }

  /** One more pick never raises a value, once there is one. */
  lemma PickNeverRaises(scene: Scene, id: string, chosen: seq<string>, pick: string)
    requires scene.lambda <= 1.0 && chosen != []
    ensures scene.Value(id, chosen + [pick]) <= scene.Value(id, chosen)
  {
    assert (chosen + [pick])[..|chosen|] == chosen;
    Weighted(1.0 - scene.lambda, scene.Similarity(id, chosen), scene.Similarity(id, chosen + [pick]));
  }

  /** The first pick lowers the value of what resembles it, and raises that of what points away. */
  lemma FirstPick(scene: Scene, id: string, pick: string)
    requires scene.lambda < 1.0
    ensures scene.Value(id, [pick]) < scene.Value(id, []) <==> Cosine(scene.Vector(id), scene.Vector(pick)) > 0.0
    ensures scene.Value(id, [pick]) > scene.Value(id, []) <==> Cosine(scene.Vector(id), scene.Vector(pick)) < 0.0
  {
    var cosine := Cosine(scene.Vector(id), scene.Vector(pick));
    Signed(1.0 - scene.lambda, cosine, (1.0 - scene.lambda) * cosine);
  }

  lemma Weighted(weight: real, a: real, b: real)
    requires 0.0 <= weight && a <= b
    ensures weight * a <= weight * b
  {
  }

  lemma Signed(weight: real, a: real, x: real)
    requires 0.0 < weight && x == weight * a
    ensures (x > 0.0 <==> a > 0.0) && (x < 0.0 <==> a < 0.0)
  {
    if a > 0.0 {
      assert weight * a > 0.0;
    } else if a < 0.0 {
      assert weight * (-a) > 0.0;
    }
  }

  /** What counts for a record: its score and its closeness to the query, if it is not turned away. */
  predicate Relevance(scene: Scene, id: string, x: real) {
    x == scene.Score(id) + RMax(0.0, Cosine(scene.query, scene.Vector(id)))
  }

  lemma ValueOf(scene: Scene, id: string, chosen: seq<string>, x: real, similar: real) returns (value: real)
    requires Relevance(scene, id, x) && similar == scene.Similarity(id, chosen)
    ensures value == scene.Value(id, chosen)
    ensures value == Traded(scene.lambda, x, similar)
  {
    value := scene.Value(id, chosen);
  }

  function Traded(lambda: real, x: real, similar: real): real { lambda * x - (1.0 - lambda) * similar }

  lemma MoreIsMore(lambda: real, x: real, y: real, similar: real)
    requires 0.0 < lambda
    ensures Traded(lambda, x, similar) > Traded(lambda, y, similar) <==> x > y
  {
    Signed(lambda, x - y, lambda * (x - y));
    assert lambda * (x - y) == lambda * x - lambda * y;
  }

  /** Of two records that resemble the picks alike, the more relevant one is worth more. */
  lemma RelevanceDecides(scene: Scene, a: string, b: string, chosen: seq<string>, x: real, y: real, similar: real)
      returns (v: real, w: real)
    requires 0.0 < scene.lambda && similar == scene.Similarity(a, chosen) && similar == scene.Similarity(b, chosen)
    requires Relevance(scene, a, x) && Relevance(scene, b, y)
    ensures v == scene.Value(a, chosen) && w == scene.Value(b, chosen)
    ensures v > w <==> x > y
  {
    v := ValueOf(scene, a, chosen, x, similar);
    w := ValueOf(scene, b, chosen, y, similar);
    MoreIsMore(scene.lambda, x, y, similar);
  }

  // ---- neighbours in time ----

  /** `x` was created before `y`. */
  predicate Older(t: Tables, x: string, y: string) {
    x in t.records && y in t.records && t.records[x].createdAt < t.records[y].createdAt
  }

  predicate LiveIn(t: Tables, id: string) { id in t.records && !t.records[id].deleted }

  /** `y` was created strictly between `x` and `id`. */
  predicate StrictlyBetween(t: Tables, x: string, y: string, id: string) {
    (Older(t, x, y) && Older(t, y, id)) || (Older(t, id, y) && Older(t, y, x))
  }

  /** The order of creation, in which ties are in any order. */
  ghost predicate Chronicle(t: Tables, order: seq<string>) {
    Ordered(map id | id in LiveIds(t) :: Key(-t.records[id].createdAt, 0), order)
  }

  lemma InOrder(t: Tables, order: seq<string>, i: nat, j: nat)
    requires Chronicle(t, order) && i < j < |order|
    ensures LiveIn(t, order[i]) && LiveIn(t, order[j]) && order[i] != order[j]
    ensures t.records[order[i]].createdAt <= t.records[order[j]].createdAt
  {
    var keys := map id | id in LiveIds(t) :: Key(-t.records[id].createdAt, 0);
    assert order[i] in order && order[j] in order;
    assert keys[order[i]].AtLeast(keys[order[j]]);
  }

  lemma Listed(t: Tables, order: seq<string>, i: nat)
    requires Chronicle(t, order) && i < |order|
    ensures LiveIn(t, order[i])
  {
    assert order[i] in order;
  }

  /** The place of a live record in the order of creation. */
  lemma PlaceOf(t: Tables, order: seq<string>, id: string) returns (k: nat)
    requires Chronicle(t, order) && LiveIn(t, id)
    ensures k < |order| && order[k] == id
  {
    assert id in order;
    k :| 0 <= k < |order| && order[k] == id;
  }

  lemma OlderIsEarlier(t: Tables, order: seq<string>, i: nat, j: nat)
    requires Chronicle(t, order) && i < |order| && j < |order| && Older(t, order[i], order[j])
    ensures i < j
  {
    if j < i {
      InOrder(t, order, j, i);
    }
  }

  /** What a window leaves out of the order. */
  lemma WindowIndex(order: seq<string>, at: nat, lo: nat, hi: nat, window: seq<string>, k: nat) returns (i: nat)
    requires lo <= at < hi <= |order| && window == order[lo..at] + order[at + 1..hi] && k != at && lo <= k < hi
    ensures i < |window| && window[i] == order[k]
  {
    i := if k < at then k - lo else k - lo - 1;
  }

  lemma WindowPlaces(order: seq<string>, at: nat, lo: nat, hi: nat, window: seq<string>)
    requires Distinct(order) && lo <= at < hi <= |order| && window == order[lo..at] + order[at + 1..hi]
    ensures Distinct(window) && |window| == hi - lo - 1
    ensures forall k :: 0 <= k < |order| ==> (order[k] in window <==> k != at && lo <= k < hi)
    ensures forall x :: x in window ==> x in order
  {
    assert forall i :: 0 <= i < |window| ==> window[i] == order[if lo + i < at then lo + i else lo + i + 1];
    forall k | 0 <= k < |order| && k != at && lo <= k < hi
      ensures order[k] in window
    {
      var i := WindowIndex(order, at, lo, hi, window, k);
    }
  }

  /** Live records other than the one asked about, at most `reach` on each side, and nothing
      skipped that was created strictly in between. */
  ghost predicate Surrounds(t: Tables, id: string, reach: nat, window: seq<string>) {
    && Distinct(window) && id !in window && |window| <= 2 * reach
    && (forall x :: x in window ==> LiveIn(t, x))
    && (forall x, y :: x in window && LiveIn(t, y) && StrictlyBetween(t, x, y, id) ==> y in window)
  }

  lemma WindowSurrounds(t: Tables, order: seq<string>, at: nat, reach: nat, window: seq<string>)
    requires Chronicle(t, order) && at < |order|
    requires window == order[Max(0, at - reach)..at] + order[at + 1..Min(|order|, at + reach + 1)]
    ensures Surrounds(t, order[at], reach, window)
  {
    WindowPlaces(order, at, Max(0, at - reach), Min(|order|, at + reach + 1), window);
    forall x | x in window
      ensures LiveIn(t, x)
    {
      assert x in order;
    }
    forall x, y | x in window && LiveIn(t, y) && StrictlyBetween(t, x, y, order[at])
      ensures y in window
    {
      var i := PlaceOf(t, order, x);
      var k := PlaceOf(t, order, y);
      if Older(t, x, y) {
        OlderIsEarlier(t, order, i, k);
        OlderIsEarlier(t, order, k, at);
      } else {
        OlderIsEarlier(t, order, at, k);
        OlderIsEarlier(t, order, k, i);
      }
    }
  }

  /** The members of a window created no earlier than one record and no later than another. */
  ghost function Inside(t: Tables, window: seq<string>, from: string, to: string): set<string> {
    set x | x in window && Amid(t, from, x, to)
  }

  predicate Amid(t: Tables, from: string, x: string, to: string) {
    from in t.records && x in t.records && to in t.records &&
    t.records[from].createdAt <= t.records[x].createdAt <= t.records[to].createdAt
  }

  lemma SideIsFull(t: Tables, order: seq<string>, lo: nat, hi: nat, window: seq<string>, from: string, to: string)
    requires Chronicle(t, order) && lo <= hi <= |order|
    requires forall k :: lo <= k < hi ==> order[k] in window && Amid(t, from, order[k], to)
    ensures |Inside(t, window, from, to)| >= hi - lo
  {
    var side := order[lo..hi];
    DistinctSize(side);
    forall x | x in side
      ensures x in Inside(t, window, from, to)
    {
      var k :| 0 <= k < |side| && side[k] == x;
      assert order[lo + k] == x;
    }
    SubsetSize(Elements(side), Inside(t, window, from, to));
  }

  /** A record outside the window has `reach` members of it between itself and the one asked about. */
  ghost predicate Crowded(t: Tables, id: string, reach: nat, window: seq<string>) {
    forall y :: LiveIn(t, y) && LiveIn(t, id) && y !in window && y != id ==>
      && (Older(t, y, id) ==> |Inside(t, window, y, id)| >= reach)
      && (Older(t, id, y) ==> |Inside(t, window, id, y)| >= reach)
  }

  lemma WindowCrowded(t: Tables, order: seq<string>, at: nat, reach: nat, window: seq<string>)
    requires Chronicle(t, order) && at < |order|
    requires window == order[Max(0, at - reach)..at] + order[at + 1..Min(|order|, at + reach + 1)]
    ensures Crowded(t, order[at], reach, window)
  {
    WindowPlaces(order, at, Max(0, at - reach), Min(|order|, at + reach + 1), window);
    Listed(t, order, at);
    forall y | LiveIn(t, y) && y !in window && y != order[at]
      ensures Older(t, y, order[at]) ==> |Inside(t, window, y, order[at])| >= reach
      ensures Older(t, order[at], y) ==> |Inside(t, window, order[at], y)| >= reach
    {
      var k := PlaceOf(t, order, y);
      if Older(t, y, order[at]) {
        OlderIsEarlier(t, order, k, at);
        OlderSide(t, order, at, reach, window, k);
      }
      if Older(t, order[at], y) {
        OlderIsEarlier(t, order, at, k);
        NewerSide(t, order, at, reach, window, k);
      }
    }
  }

  lemma OlderSide(t: Tables, order: seq<string>, at: nat, reach: nat, window: seq<string>, k: nat)
    requires Chronicle(t, order) && k < at < |order| && k < at - reach
    requires forall i :: 0 <= i < |order| ==> (order[i] in window <==> i != at && at - reach <= i <= at + reach)
    ensures |Inside(t, window, order[k], order[at])| >= reach
  {
    forall i | at - reach <= i < at
      ensures Amid(t, order[k], order[i], order[at])
    {
      InOrder(t, order, k, i);
      InOrder(t, order, i, at);
    }
    SideIsFull(t, order, at - reach, at, window, order[k], order[at]);
  }

  lemma NewerSide(t: Tables, order: seq<string>, at: nat, reach: nat, window: seq<string>, k: nat)
    requires Chronicle(t, order) && at + reach < k < |order|
    requires forall i :: 0 <= i < |order| ==> (order[i] in window <==> i != at && at - reach <= i <= at + reach)
    ensures |Inside(t, window, order[at], order[k])| >= reach
  {
    forall i | at < i <= at + reach
      ensures Amid(t, order[at], order[i], order[k])
    {
      InOrder(t, order, at, i);
      InOrder(t, order, i, k);
    }
    SideIsFull(t, order, at + 1, at + reach + 1, window, order[at], order[k]);
  }

  /** The temporal neighbours of a live record, in terms of when records were created: as many as
      asked for on each side, up to ten, and the nearest. */
  lemma NeighborsAreNearest(t: Tables, id: string, radius: int, window: seq<string>)
    requires Neighborhood(t, id, radius, window) && LiveIn(t, id)
    ensures var reach := if radius < 0 then 0 else if radius > 10 then 10 else radius;
      Surrounds(t, id, reach, window) && Crowded(t, id, reach, window)
  {
    var reach := Between(0, 10, radius);
    if reach == 0 {
      NoneAsked(t, id);
    } else {
      var order, at :| Window(t, order, at, reach, window) && order[at] == id;
      WindowSurrounds(t, order, at, reach, window);
      WindowCrowded(t, order, at, reach, window);
    }
  }

  lemma NoneAsked(t: Tables, id: string)
    ensures Surrounds(t, id, 0, []) && Crowded(t, id, 0, [])
  {
  }
}
