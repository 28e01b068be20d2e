/** Greedy selection by relevance minus similarity to what is already chosen, and the whole
    of `StorageCoordinator.search` on top of it. */
module Diversity {
  import opened Prelude
  import opened Sorting
  import opened Records
  import opened EncryptedStore
  import opened StoreInvariant
  import BlindSearch
  import opened Retrieval

  /** `_cosine`: the shorter vector decides how many terms are summed. */
  function Cosine(a: seq<real>, b: seq<real>): real {
    if a == [] || b == [] then 0.0 else a[0] * b[0] + Cosine(a[1..], b[1..])
  }

  /** What the scoring of one search depends on. */
  datatype Scene = Scene(lambda: real, rrf: map<string, real>, query: seq<real>, vectors: map<string, seq<real>>) {
    function Score(id: string): real { ScoreOf(rrf, id) }

    function Vector(id: string): seq<real> { if id in vectors then vectors[id] else [] }

    /** The largest similarity to an earlier pick; 0 before the first. */
    function Similarity(id: string, chosen: seq<string>): real {
      if chosen == [] then 0.0
      else
        var last := Cosine(Vector(id), Vector(chosen[|chosen| - 1]));
        if |chosen| == 1 then last else RMax(Similarity(id, chosen[..|chosen| - 1]), last)
    }

    function Value(id: string, chosen: seq<string>): real {
      lambda * (Score(id) + RMax(0.0, Cosine(query, Vector(id)))) - (1.0 - lambda) * Similarity(id, chosen)
    }

    ghost predicate ByScore(ids: seq<string>) {
      forall i, j :: 0 <= i < j < |ids| ==> Score(ids[i]) >= Score(ids[j])
    }

    predicate Higher(a: string, b: string) { Score(a) >= Score(b) }

    function Sort(ids: seq<string>): seq<string> { SortBy(Higher, ids) }

    lemma SortSorts(ids: seq<string>)
      requires Distinct(ids)
      ensures ByScore(Sort(ids)) && Distinct(Sort(ids)) && |Sort(ids)| == |ids|
      ensures forall x :: x in Sort(ids) <==> x in ids
    {
      SortBySorts(Higher, ids);
      SameMembers(Sort(ids), ids);
      assert SortedBy(Higher, Sort(ids));
    }

    /** `id` beats every other candidate left; a tie goes to the higher fused score. */
    ghost predicate Beats(id: string, rest: set<string>, chosen: seq<string>) {
      forall c :: c in rest ==>
        Value(c, chosen) < Value(id, chosen) || (Value(c, chosen) == Value(id, chosen) && Score(c) <= Score(id))
    }

    /** Each pick was the best of the candidates not yet picked. */
    ghost predicate Greedy(candidates: set<string>, selected: seq<string>) {
      forall i :: 0 <= i < |selected| ==>
        selected[i] in candidates && selected[i] !in selected[..i] &&
            Beats(selected[i], candidates - Elements(selected[..i]), selected[..i])
    }

    /** `max(candidates, key=...)`: the first candidate with the largest value. */
    method Best(candidates: seq<string>, chosen: seq<string>) returns (best: nat)
      requires candidates != [] && ByScore(candidates)
      ensures best < |candidates|
      ensures Beats(candidates[best], Elements(candidates), chosen)
    {
      best := 0;
      for i := 1 to |candidates|
        invariant best < i
        invariant forall j :: 0 <= j < best ==> Value(candidates[j], chosen) < Value(candidates[best], chosen)
        invariant forall j :: best <= j < i ==> Value(candidates[j], chosen) <= Value(candidates[best], chosen)
      {
        if Value(candidates[i], chosen) > Value(candidates[best], chosen) {
          best := i;
        }
      }
    }

    lemma WithoutOne(candidates: seq<string>, best: nat)
      requires ByScore(candidates) && Distinct(candidates) && best < |candidates|
      ensures var rest := candidates[..best] + candidates[best + 1..];
        ByScore(rest) && Distinct(rest) && Elements(rest) == Elements(candidates) - {candidates[best]}
    {
      var rest := candidates[..best] + candidates[best + 1..];
      assert forall i :: 0 <= i < |rest| ==> rest[i] == candidates[if i < best then i else i + 1];
      forall x | x in candidates && x != candidates[best]
        ensures x in rest
      {
        var i :| 0 <= i < |candidates| && candidates[i] == x;
        assert rest[if i < best then i else i - 1] == x;
      }
    }

    lemma PickedNext(all: set<string>, selected: seq<string>, id: string)
      requires Greedy(all, selected) && Distinct(selected)
      requires id in all - Elements(selected) && Beats(id, all - Elements(selected), selected)
      ensures Greedy(all, selected + [id]) && Distinct(selected + [id])
      ensures Elements(selected + [id]) == Elements(selected) + {id}
    {
      var longer := selected + [id];
      assert longer[..|selected|] == selected;
      assert forall i :: 0 <= i < |selected| ==> longer[..i] == selected[..i];
    }

    method Select(order: seq<string>, limit: int) returns (selected: seq<string>)
      requires Distinct(order)
      ensures Distinct(selected) && |selected| == Min(Max(1, Min(50, limit)), |order|)
      ensures Greedy(Elements(order), selected)
    {
      selected := [];
      var candidates := Sort(order);
      SortSorts(order);
      while candidates != [] && |selected| < Max(1, Min(50, limit))
        invariant ByScore(candidates) && Distinct(candidates) && Distinct(selected)
        invariant Elements(candidates) == Elements(order) - Elements(selected)
        invariant |candidates| + |selected| == |order| && |selected| <= Max(1, Min(50, limit))
        invariant Greedy(Elements(order), selected)
      {
        var best := Best(candidates, selected);
        assert candidates[best] in Elements(candidates);
        WithoutOne(candidates, best);
        PickedNext(Elements(order), selected, candidates[best]);
        selected := selected + [candidates[best]];
        candidates := candidates[..best] + candidates[best + 1..];
      }
    }
  }

  /** The vectors of everything found. */
  function Vectors(p: Primitives, records: map<string, StoredRecord>): map<string, seq<real>> {
    map id | id in records :: Project(p, records[id]).content
  }

  /** Where the candidates come from: the blind search, the live records the index named, and
      the temporal neighbours of the first `limit` of those. */
  ghost predicate Gathered(p: Primitives, t: Tables, k: nat, hits: seq<BlindSearch.Hit>, indexed: seq<string>,
      limit: int, radius: int, windows: seq<seq<string>>, found: Found) {
    var direct := HitIds(hits) + Kept(t, indexed);
    && Sane(p, t, found)
    && Windows(t, Head(Unique(direct), limit), radius, windows)
    && Met(found, direct + Flat(windows))
    && Scored(k, found, HitIds(hits), indexed, Flat(windows))
  }

  /** The blind search ranks as a plain scan does. */
  ghost predicate Lexical(p: Primitives, t: Tables, query: string, limit: int, recordType: string,
      hits: seq<BlindSearch.Hit>) {
    && BlindSearch.HitsLive(p, t, hits)
    && (p.tokens(query) == {} ==> hits == [])
    && (p.tokens(query) != {} && Healthy(p, t) && BlindSearch.NoClash(p, t, p.tokens(query)) ==>
          BlindSearch.IsPlainScan(p, t, p.tokens(query), Max(limit * 4, 24), recordType, hits))
  }

  /** `StorageCoordinator.search`. `indexed` is what the search index answered, best first;
      it may name records that are stale, deleted or unknown. */
  method Retrieve(store: Store, unlocked: bool, w: Weights, query: string, limit: int, recordType: string,
      radius: int, indexed: seq<string>)
      returns (r: Result<seq<(StoredRecord, real)>>, ghost found: Found, ghost scene: Scene,
          ghost hits: seq<BlindSearch.Hit>, ghost windows: seq<seq<string>>)
    ensures unlocked && Readable(store.p, store.State()) ==> r.Ok?
    ensures r.Ok? ==> Lexical(store.p, store.State(), query, limit, recordType, hits)
    ensures r.Ok? ==> Gathered(store.p, store.State(), w.k, hits, indexed, limit, radius, windows, found)
    ensures r.Ok? ==> scene == Scene(w.lambda, found.rrf, store.p.features(query), Vectors(store.p, found.records))
    ensures r.Ok? ==> Answers(store.p, store.State(), scene, found, limit, r.value)
  {
    found, windows, hits := Found([], map[], map[]), [], [];
    scene := Scene(w.lambda, map[], [], map[]);
    var p := store.p;
    var lexical := BlindSearch.Search(store, unlocked, query, Max(limit * 4, 24), recordType);
    if lexical.Err? {
      return Err, found, scene, hits, windows;
    }
    hits := lexical.value;
    var stage := AddLexical(p, store.State(), w.k, lexical.value);
    var merged := AddIndexed(store, unlocked, w.k, stage, HitIds(lexical.value), indexed);
    if merged.Err? {
      return Err, found, scene, hits, windows;
    }
    var expanded;
    expanded, windows := Expand(store, unlocked, w.k, merged.value, HitIds(lexical.value), indexed,
                                HitIds(lexical.value) + Kept(store.State(), indexed), limit, radius);
    if expanded.Err? {
      return Err, found, scene, hits, windows;
    }
    var all := expanded.value;
    var view := Scene(w.lambda, all.rrf, p.features(query), Vectors(p, all.records));
    var selected := view.Select(all.order, limit);
    found, scene := all, view;
    var shown := Show(all, selected);
    Answered(p, store.State(), view, all, limit, selected, shown);
    r := Ok(shown);
  }

  /** The answer: live records, each once, picked greedily among everything found. */
  ghost predicate Answers(p: Primitives, t: Tables, scene: Scene, found: Found, limit: int,
      answer: seq<(StoredRecord, real)>) {
    && |answer| == Min(Max(1, Min(50, limit)), |found.order|)
    && scene.Greedy(Elements(found.order), Chosen(answer))
    && Distinct(Chosen(answer))
    && forall i :: 0 <= i < |answer| ==> var id := answer[i].0.recordId;
         Live(t, id) && Decode(p, id, t.records[id]) == Ok(answer[i].0) && answer[i].1 == scene.Score(id)
  }

  function Chosen(answer: seq<(StoredRecord, real)>): seq<string> {
    seq(|answer|, i requires 0 <= i < |answer| => answer[i].0.recordId)
  }

  function Show(found: Found, selected: seq<string>): seq<(StoredRecord, real)>
    requires forall id :: id in selected ==> id in found.records
  {
    seq(|selected|, i requires 0 <= i < |selected| => (found.records[selected[i]], ScoreOf(found.rrf, selected[i])))
  }

  lemma Answered(p: Primitives, t: Tables, scene: Scene, found: Found, limit: int, selected: seq<string>,
      shown: seq<(StoredRecord, real)>)
    requires Sane(p, t, found) && scene.rrf == found.rrf
    requires Distinct(selected) && |selected| == Min(Max(1, Min(50, limit)), |found.order|)
    requires scene.Greedy(Elements(found.order), selected)
    requires (forall id :: id in selected ==> id in found.records) && shown == Show(found, selected)
    ensures Answers(p, t, scene, found, limit, shown)
  {
    assert forall i :: 0 <= i < |selected| ==> selected[i] in selected;
    assert Chosen(shown) == selected;
  }
}
