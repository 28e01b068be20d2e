/** The attack-surface graph of a scenario (attack_surface_graph.dart): what an asset can
    reach in a bounded number of hops, and the mean criticality of what it reaches. */
module AttackSurface {
  import opened Prelude
  import opened Distances

  datatype Vector =
    | Phishing | CredentialExposure | SocialEngineering | PhysicalIntrusion | InsiderRisk
    | SupplyChain | Misconfiguration | Malware | DataExfiltration | Availability

  datatype Kind = Endpoint | Server | Facility | Supplier | Other

  datatype Asset = Asset(id: string, kind: Kind, location: string, criticality: real)

  datatype Edge = Edge(fromId: string, toId: string, vector: Vector)

  /** The edges leaving an asset, in scenario order. */
  function Leaving(edges: seq<Edge>, id: string): seq<Edge> {
    if edges == [] then []
    else
      var last := edges[|edges| - 1];
      Leaving(edges[..|edges| - 1], id) + (if last.fromId == id then [last] else [])
  }

  lemma {:induction false} LeavingIsFilter(edges: seq<Edge>, id: string)
    ensures forall e :: e in Leaving(edges, id) <==> e in edges && e.fromId == id
  {
    if edges != [] {
      var front, last := edges[..|edges| - 1], edges[|edges| - 1];
      LeavingIsFilter(front, id);
      assert edges == front + [last];
    }
  }

  ghost function Targets(edges: seq<Edge>): set<string> { set e | e in edges :: e.toId }

  lemma TargetsAppend(edges: seq<Edge>, k: nat)
    requires k < |edges|
    ensures Targets(edges[..k + 1]) == Targets(edges[..k]) + {edges[k].toId}
    ensures edges[k].toId in Targets(edges)
  {
    assert edges[..k + 1] == edges[..k] + [edges[k]];
  }

  /** The directed graph the edges draw. */
  ghost function Drawn(edges: seq<Edge>): Graph {
    var sources := set e | e in edges :: e.fromId;
    map id | id in sources :: Targets(Leaving(edges, id))
  }

  lemma DrawnTargets(edges: seq<Edge>, id: string)
    ensures Next(Drawn(edges), id) == Targets(Leaving(edges, id))
  {
    LeavingIsFilter(edges, id);
  }

  /** Everything other than the start within d hops of it. */
  ghost function ReachedIds(edges: seq<Edge>, start: string, d: nat): set<string> {
    Within(Drawn(edges), start, d) - {start}
  }

  /** The hops are true distances: the reached ids are those at distance one to d. */
  lemma {:induction false} ReachedAtDistance(edges: seq<Edge>, start: string, d: nat, id: string)
    ensures (id in ReachedIds(edges, start, d)) <==>
            (exists n :: 1 <= n <= d && AtDistance(Drawn(edges), start, id, n))
  {
    var g := Drawn(edges);
    if id in ReachedIds(edges, start, d) {
      if id in Within(g, start, d - 1) {
        ReachedAtDistance(edges, start, d - 1, id);
      } else {
        assert AtDistance(g, start, id, d);
      }
    }
    forall n | 1 <= n <= d && AtDistance(g, start, id, n)
      ensures id in ReachedIds(edges, start, d)
    {
      WithinGrows(g, start, n, d);
      WithinGrows(g, start, 0, n - 1);
    }
  }

  /** Looking further, or adding edges, only ever reaches more. */
  lemma MoreReachesMore(edges: seq<Edge>, more: seq<Edge>, start: string, d: nat, e: nat)
    requires d <= e && forall x :: x in edges ==> x in more
    ensures ReachedIds(edges, start, d) <= ReachedIds(more, start, e)
  {
    forall id
      ensures Next(Drawn(edges), id) <= Next(Drawn(more), id)
    {
      DrawnTargets(edges, id);
      DrawnTargets(more, id);
      LeavingIsFilter(edges, id);
      LeavingIsFilter(more, id);
    }
    WithinMonotone(Drawn(edges), Drawn(more), start, d);
    WithinGrows(Drawn(more), start, d, e);
  }

  /** Once a round finds nothing new, later rounds find nothing either. */
  lemma {:induction false} Saturated(g: Graph, start: string, n: nat, m: nat)
    requires n <= m && Neighbors(g, Within(g, start, n)) <= Within(g, start, n)
    ensures Within(g, start, m) == Within(g, start, n)
  {
    if n < m {
      Saturated(g, start, n, m - 1);
    }
  }

  /** Nothing is listed before something nearer. */
  ghost predicate NearestFirst(g: Graph, start: string, s: seq<string>) {
    forall i, j, n :: 0 <= i < j < |s| && n >= 0 && s[j] in Within(g, start, n) ==> s[i] in Within(g, start, n)
  }

  /** What holds after whole rounds: `visited` is exactly what lies within `depth` hops, and
      only the frontier may still have neighbours outside it. */
  ghost predicate Explored(g: Graph, start: string, depth: nat, visited: seq<string>, frontier: seq<string>) {
    && Distinct(visited)
    && visited != [] && visited[0] == start
    && Elements(visited) == Within(g, start, depth)
    && (forall x :: x in frontier ==> x in visited)
    && (forall x :: x in visited && x !in frontier ==> Next(g, x) <= Elements(visited))
    && NearestFirst(g, start, visited)
  }

  /** What holds inside a round, after some edges of the frontier have been followed. */
  ghost predicate Exploring(g: Graph, before: seq<string>, visited: seq<string>, next: seq<string>) {
    && visited == before + next
    && Distinct(visited)
    && forall x :: x in next ==> x in Neighbors(g, Elements(before))
  }

  lemma ElementsAppend<T>(s: seq<T>, t: seq<T>)
    ensures Elements(s + t) == Elements(s) + Elements(t)
  {
  }

  lemma NotBefore(before: seq<string>, next: seq<string>, j: nat)
    requires Distinct(before + next) && |before| <= j < |before + next|
    ensures (before + next)[j] !in Elements(before)
  {
    assert forall k :: 0 <= k < |before| ==> (before + next)[k] == before[k];
  }

  /** Whatever is new lies farther away than whatever was there. */
  lemma NewIsFarther(g: Graph, start: string, depth: nat, before: seq<string>, next: seq<string>, i: nat, j: nat,
      n: nat)
    requires Elements(before) == Within(g, start, depth) && Elements(before + next) == Within(g, start, depth + 1)
    requires Distinct(before + next)
    requires i < |before + next| && |before| <= j < |before + next| && (before + next)[j] in Within(g, start, n)
    ensures (before + next)[i] in Within(g, start, n)
  {
    NotBefore(before, next, j);
    assert (before + next)[i] in Elements(before + next);
    if n <= depth {
      WithinGrows(g, start, n, depth);
    } else {
      WithinGrows(g, start, depth + 1, n);
    }
  }

  lemma StillNearestFirst(g: Graph, start: string, depth: nat, before: seq<string>, next: seq<string>)
    requires NearestFirst(g, start, before) && Elements(before) == Within(g, start, depth)
    requires Elements(before + next) == Within(g, start, depth + 1)
    requires Distinct(before + next)
    ensures NearestFirst(g, start, before + next)
  {
    var visited := before + next;
    forall i, j, n | 0 <= i < j < |visited| && n >= 0 && visited[j] in Within(g, start, n)
      ensures visited[i] in Within(g, start, n)
    {
      if j < |before| {
        assert before[i] == visited[i] && before[j] == visited[j];
      } else {
        NewIsFarther(g, start, depth, before, next, i, j, n);
      }
    }
  }

  /** Following one edge to an id not seen before. */
  lemma Discover(g: Graph, before: seq<string>, visited: seq<string>, next: seq<string>, target: string)
    requires Exploring(g, before, visited, next)
    requires target in Neighbors(g, Elements(before)) && target !in visited
    ensures Exploring(g, before, visited + [target], next + [target])
  {
    assert visited + [target] == before + (next + [target]);
  }

  lemma RoundDone(g: Graph, start: string, depth: nat, before: seq<string>, frontier: seq<string>,
      visited: seq<string>, next: seq<string>)
    requires Explored(g, start, depth, before, frontier)
    requires Exploring(g, before, visited, next)
    requires Covered(g, frontier, visited)
    ensures Explored(g, start, depth + 1, visited, next)
  {
    ElementsAppend(before, next);
    var closer := Within(g, start, depth);
    assert Elements(visited) == closer + Elements(next);
    assert Neighbors(g, closer) <= Elements(visited);
    assert Elements(visited) == closer + Neighbors(g, closer);
    StillNearestFirst(g, start, depth, before, next);
    assert visited[0] == before[0];
  }

  lemma DropStart(g: Graph, start: string, visited: seq<string>)
    requires Distinct(visited) && visited != [] && visited[0] == start
    requires NearestFirst(g, start, visited)
    ensures Distinct(visited[1..]) && NearestFirst(g, start, visited[1..])
    ensures Elements(visited[1..]) == Elements(visited) - {start}
  {
    assert visited == [start] + visited[1..];
  }

  /** An id without an asset counts a half. */
  function Criticality(assets: map<string, Asset>, id: string): real {
    if id in assets then assets[id].criticality else 0.5
  }

  function Weight(assets: map<string, Asset>, ids: seq<string>): real {
    if ids == [] then 0.0
    else Weight(assets, ids[..|ids| - 1]) + Criticality(assets, ids[|ids| - 1])
  }

  function Mean(assets: map<string, Asset>, ids: seq<string>): real {
    if ids == [] then 0.0 else Weight(assets, ids) / |ids| as real
  }

  ghost predicate InRange(assets: map<string, Asset>) {
    forall id :: id in assets ==> 0.0 <= assets[id].criticality <= 1.0
  }

  lemma {:induction false} WeightBetween(assets: map<string, Asset>, ids: seq<string>)
    requires InRange(assets)
    ensures 0.0 <= Weight(assets, ids) <= |ids| as real
  {
    if ids != [] {
      WeightBetween(assets, ids[..|ids| - 1]);
    }
  }

  lemma MeanBetween(assets: map<string, Asset>, ids: seq<string>)
    requires InRange(assets)
    ensures 0.0 <= Mean(assets, ids) <= 1.0
  {
    WeightBetween(assets, ids);
    if ids != [] {
      Share(Weight(assets, ids), |ids| as real);
    }
  }

  lemma Share(part: real, whole: real)
    requires 0.0 <= part <= whole && whole > 0.0
    ensures 0.0 <= part / whole <= 1.0
  {
  }

  /** What an id counts lies between `lo` and `hi`; an id without an asset counts a half. */
  predicate CountsWithin(assets: map<string, Asset>, id: string, lo: real, hi: real) {
    if id in assets then lo <= assets[id].criticality <= hi else lo <= 0.5 <= hi
  }

  lemma {:induction false} WeightWithin(assets: map<string, Asset>, ids: seq<string>, lo: real, hi: real)
    requires forall id :: id in ids ==> CountsWithin(assets, id, lo, hi)
    ensures Times(lo, |ids|) <= Weight(assets, ids) <= Times(hi, |ids|)
  {
    if ids != [] {
      var n := |ids| - 1;
      assert ids[n] in ids && forall id :: id in ids[..n] ==> id in ids;
      WeightWithin(assets, ids[..n], lo, hi);
    }
  }

  /** A mean lies between the least and the greatest of what it is over. */
  lemma MeanWithin(assets: map<string, Asset>, ids: seq<string>, lo: real, hi: real)
    requires ids != [] && forall id :: id in ids ==> CountsWithin(assets, id, lo, hi)
    ensures lo <= Mean(assets, ids) <= hi
  {
    WeightWithin(assets, ids, lo, hi);
    TimesIs(lo, |ids|);
    TimesIs(hi, |ids|);
    QuotientWithin(Weight(assets, ids), |ids| as real, lo, hi);
  }

  lemma QuotientWithin(part: real, whole: real, lo: real, hi: real)
    requires whole > 0.0 && lo * whole <= part <= hi * whole
    ensures lo <= part / whole <= hi
  {
    assert part / whole * whole == part;
  }

  /** The criticality of each asset reached counts in full, once. */
  lemma {:induction false} OneCounts(assets: map<string, Asset>, ids: seq<string>, id: string, d: real)
    requires Distinct(ids) && id in assets
    ensures Weight(assets[id := assets[id].(criticality := assets[id].criticality + d)], ids)
         == Weight(assets, ids) + if id in ids then d else 0.0
  {
    if ids != [] {
      var n := |ids| - 1;
      assert ids == ids[..n] + [ids[n]] && ids[n] !in ids[..n];
      OneCounts(assets, ids[..n], id, d);
    }
  }

  lemma {:induction false} WeightWithout(assets: map<string, Asset>, ids: seq<string>, i: nat)
    requires i < |ids|
    ensures Weight(assets, ids) == Weight(assets, ids[..i] + ids[i + 1..]) + Criticality(assets, ids[i])
  {
    var n := |ids| - 1;
    if i == n {
      assert ids[..i] + ids[i + 1..] == ids[..n];
    } else {
      WeightWithout(assets, ids[..n], i);
      var rest := ids[..i] + ids[i + 1..];
      assert rest[..|rest| - 1] == ids[..n][..i] + ids[..n][i + 1..];
    }
  }

  lemma WithoutElement(s: seq<string>, i: nat)
    requires Distinct(s) && i < |s|
    ensures Distinct(s[..i] + s[i + 1..])
    ensures Elements(s[..i] + s[i + 1..]) == Elements(s) - {s[i]}
  {
    assert s == s[..i] + [s[i]] + s[i + 1..];
  }

  /** The weight belongs to the set of ids, not to the order in which they were found. */
  lemma {:induction false} WeightOfSet(assets: map<string, Asset>, s: seq<string>, t: seq<string>)
    requires Distinct(s) && Distinct(t) && Elements(s) == Elements(t)
    ensures |s| == |t| && Weight(assets, s) == Weight(assets, t)
    decreases |s|
  {
    DistinctSize(s);
    DistinctSize(t);
    if s != [] {
      var n := |s| - 1;
      assert s[n] in Elements(t);
      var i :| 0 <= i < |t| && t[i] == s[n];
      var rest := t[..i] + t[i + 1..];
      WeightWithout(assets, t, i);
      WithoutElement(t, i);
      WithoutElement(s, n);
      assert s[..n] + s[n + 1..] == s[..n];
      WeightOfSet(assets, s[..n], rest);
    }
  }

  function Latest(assets: seq<Asset>, id: string): Option<Asset> {
    if assets == [] then None
    else if assets[|assets| - 1].id == id then Some(assets[|assets| - 1])
    else Latest(assets[..|assets| - 1], id)
  }

  /** Every asset id is a key, and of several assets with one id the last is kept. */
  ghost predicate IsIndex(byId: map<string, Asset>, assets: seq<Asset>) {
    forall id :: Latest(assets, id) == if id in byId then Some(byId[id]) else None
  }

  method IndexAssets(assets: seq<Asset>) returns (byId: map<string, Asset>)
    ensures IsIndex(byId, assets)
  {
    byId := map[];
    for n := 0 to |assets|
      invariant IsIndex(byId, assets[..n])
    {
      assert assets[..n + 1][..n] == assets[..n];
      byId := byId[assets[n].id := assets[n]];
    }
    assert assets[..|assets|] == assets;
  }

  /** Each list holds the edges leaving one asset, in scenario order. */
  ghost predicate IsGrouping(lists: map<string, seq<Edge>>, edges: seq<Edge>) {
    forall id :: Leaving(edges, id) == if id in lists then lists[id] else []
  }

  method GroupEdges(edges: seq<Edge>) returns (lists: map<string, seq<Edge>>)
    ensures IsGrouping(lists, edges)
  {
    lists := map[];
    for n := 0 to |edges|
      invariant IsGrouping(lists, edges[..n])
    {
      var e := edges[n];
      assert edges[..n + 1][..n] == edges[..n];
      lists := lists[e.fromId := (if e.fromId in lists then lists[e.fromId] else []) + [e]];
    }
    assert edges[..|edges|] == edges;
  }

  /** Follows the edges of one frontier asset. */
  method Follow(found: seq<Edge>, ghost id: string, ghost g: Graph, ghost before: seq<string>, visited0: seq<string>,
      next0: seq<string>)
    returns (visited: seq<string>, next: seq<string>)
    requires id in before && Targets(found) == Next(g, id)
    requires Exploring(g, before, visited0, next0)
    ensures Exploring(g, before, visited, next)
    ensures Elements(visited) == Elements(visited0) + Next(g, id)
  {
    visited, next := visited0, next0;
    for k := 0 to |found|
      invariant Exploring(g, before, visited, next)
      invariant Elements(visited) == Elements(visited0) + Targets(found[..k])
    {
      var target := found[k].toId;
      TargetsAppend(found, k);
      ElementsAppend(visited, [target]);
      if target !in visited {
        Discover(g, before, visited, next, target);
        visited, next := visited + [target], next + [target];
      }
    }
    assert found[..|found|] == found;
  }

  ghost predicate Covered(g: Graph, ids: seq<string>, visited: seq<string>) {
    forall x :: x in ids ==> Next(g, x) <= Elements(visited)
  }

  lemma CoverOne(g: Graph, ids: seq<string>, id: string, visited: seq<string>, more: seq<string>)
    requires Covered(g, ids, visited) && Elements(more) == Elements(visited) + Next(g, id)
    ensures Covered(g, ids + [id], more)
  {
  }

  class AttackSurfaceGraph {
    ghost var edges: seq<Edge>
    var assets: map<string, Asset>
    var outgoing: map<string, seq<Edge>>

    ghost predicate Valid()
      reads this
    {
      IsGrouping(outgoing, edges)
    }

    constructor (scenarioAssets: seq<Asset>, scenarioEdges: seq<Edge>)
      ensures Valid() && edges == scenarioEdges
      ensures IsIndex(assets, scenarioAssets)
    {
      var byId := IndexAssets(scenarioAssets);
      var lists := GroupEdges(scenarioEdges);
      edges, assets, outgoing := scenarioEdges, byId, lists;
    }

    function EdgesFrom(id: string): (found: seq<Edge>)
      requires Valid()
      reads this
      ensures found == Leaving(edges, id)
    {
      if id in outgoing then outgoing[id] else []
    }

    /** One round: every edge of the frontier is followed. */
    method Round(start: string, depth: nat, visited0: seq<string>, frontier: seq<string>)
        returns (visited: seq<string>, next: seq<string>)
      requires Valid() && Explored(Drawn(edges), start, depth, visited0, frontier)
      ensures Explored(Drawn(edges), start, depth + 1, visited, next)
    {
      ghost var g := Drawn(edges);
      visited, next := visited0, [];
      for k := 0 to |frontier|
        invariant Exploring(g, visited0, visited, next)
        invariant Covered(g, frontier[..k], visited)
      {
        var found := EdgesFrom(frontier[k]);
        DrawnTargets(edges, frontier[k]);
        ghost var seen := visited;
        visited, next := Follow(found, frontier[k], g, visited0, visited, next);
        CoverOne(g, frontier[..k], frontier[k], seen, visited);
        assert frontier[..k + 1] == frontier[..k] + [frontier[k]];
      }
      assert frontier[..|frontier|] == frontier;
      RoundDone(g, start, depth, visited0, frontier, visited, next);
    }

    /** The Dart set keeps insertion order, so `visited` is a list without repeats and
        removing the start drops its first entry. */
    method Reachable(start: string, maxDepth: int) returns (reached: seq<string>)
      requires Valid()
      ensures Distinct(reached)
      ensures Elements(reached) == ReachedIds(edges, start, Max(0, maxDepth))
      ensures NearestFirst(Drawn(edges), start, reached)
    {
      var visited, frontier, depth := [start], [start], 0;
      while depth < maxDepth && frontier != []
        invariant 0 <= depth <= Max(0, maxDepth)
        invariant Explored(Drawn(edges), start, depth, visited, frontier)
      {
        visited, frontier := Round(start, depth, visited, frontier);
        depth := depth + 1;
      }
      if depth < maxDepth {
        Saturated(Drawn(edges), start, depth, maxDepth);
      }
      reached := visited[1..];
      DropStart(Drawn(edges), start, visited);
    }

    /** The mean criticality of what an asset reaches, however the ids are listed; the clamp
        cuts nothing when every criticality lies in [0, 1]. */
    method BlastRadius(id: string, maxDepth: int) returns (radius: real)
      requires Valid()
      ensures 0.0 <= radius <= 1.0
      ensures forall s :: Distinct(s) && Elements(s) == ReachedIds(edges, id, Max(0, maxDepth)) ==>
                radius == (if InRange(assets) then Mean(assets, s) else Clamp(Mean(assets, s)))
    {
      var reached := Reachable(id, maxDepth);
      forall s | Distinct(s) && Elements(s) == ReachedIds(edges, id, Max(0, maxDepth))
        ensures Mean(assets, s) == Mean(assets, reached)
      {
        WeightOfSet(assets, s, reached);
      }
      assert InRange(assets) ==> 0.0 <= Mean(assets, reached) <= 1.0 by {
        if InRange(assets) {
          MeanBetween(assets, reached);
        }
      }
      if reached == [] {
        return 0.0;
      }
      var weighted := 0.0;
      for k := 0 to |reached|
        invariant weighted == Weight(assets, reached[..k])
      {
        assert reached[..k + 1][..k] == reached[..k];
        weighted := weighted + Criticality(assets, reached[k]);
      }
      assert reached[..|reached|] == reached;
      radius := Clamp(weighted / |reached| as real);
    }
  }
}
