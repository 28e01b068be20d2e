/** The breadth-first walk of `provenance_graph`: visit on pop, duplicate queue entries, a
    depth cap and a node cap. */
module ProvenanceWalk {
  import opened Prelude
  import opened Distances

  type Lists = map<string, seq<string>>

  /** The links between live records: `outgoing` as declared, `incoming` reversed, and for each
      record the order in which the one and the other are followed. */
  datatype Links = Links(outgoing: Graph, incoming: Graph, targets: Lists, sources: Lists)

  /** Everything is listed, and nothing else. */
  ghost predicate ListedAt(g: Graph, lists: Lists, id: string) {
    id in g ==> id in lists && forall z :: z in lists[id] <==> z in g[id]
  }

  ghost predicate ListedBy(g: Graph, lists: Lists) {
    lists.Keys == g.Keys && forall id :: ListedAt(g, lists, id)
  }

  ghost predicate InOrder(links: Links) {
    && links.incoming.Keys == links.outgoing.Keys
    && ListedBy(links.outgoing, links.targets) && ListedBy(links.incoming, links.sources)
  }

  /** A reference leads to a live record, which has it among those coming in. */
  ghost predicate MirroredAt(links: Links, a: string, b: string) {
    && (b in Next(links.outgoing, a) <==> a in Next(links.incoming, b))
    && (b in Next(links.outgoing, a) ==> b in links.outgoing)
  }

  ghost predicate Mirrored(links: Links) {
    InOrder(links) && forall a, b :: MirroredAt(links, a, b)
  }

  /** Neighbours in either direction. */
  function Both(links: Links): Graph {
    map id | id in links.outgoing :: links.outgoing[id] + Next(links.incoming, id)
  }

  function ListAt(lists: Lists, id: string): seq<string> { if id in lists then lists[id] else [] }

  /** What reporting a node queues: what it refers to, then what refers to it. */
  function Around(links: Links, id: string): seq<string> {
    ListAt(links.targets, id) + ListAt(links.sources, id)
  }

  lemma AroundIsBoth(links: Links, id: string)
    requires InOrder(links)
    ensures forall z :: z in Around(links, id) <==> z in Next(Both(links), id)
  {
    assert ListedAt(links.outgoing, links.targets, id) && ListedAt(links.incoming, links.sources, id);
  }

  /** Links lead to live records only, and back again. */
  lemma BothClosed(links: Links)
    requires Mirrored(links)
    ensures var g := Both(links); forall id, z :: id in g && z in g[id] ==> z in g && id in g[z]
  {
    var g := Both(links);
    forall id, z | id in g && z in g[id]
      ensures z in g && id in g[z]
    {
      assert MirroredAt(links, id, z) && MirroredAt(links, z, id);
    }
  }

  lemma NotFarther(g: Graph, root: string, id: string, n: nat, k: nat)
    requires AtDistance(g, root, id, n) && id in Within(g, root, k)
    ensures n <= k
  {
    if k < n {
      WithinGrows(g, root, k, n - 1);
    }
  }

  /** One position of the walk: its queue, the visited identifiers with the depth each was
      reported at, and the two lists it returns. */
  datatype Walk = Walk(queue: seq<(string, nat)>, visited: map<string, nat>, nodes: seq<(string, nat)>,
      edges: seq<(string, string)>)

  ghost predicate Queued(queue: seq<(string, nat)>, id: string, depth: int) {
    exists i :: 0 <= i < |queue| && queue[i].0 == id && queue[i].1 <= depth
  }

  ghost predicate QueuedBy(queue: seq<(string, nat)>, depth: int) {
    exists i :: 0 <= i < |queue| && queue[i].1 <= depth
  }

  /** Depths in the queue never decrease and span at most two values. */
  ghost predicate Layered(queue: seq<(string, nat)>) {
    forall i, j :: 0 <= i <= j < |queue| ==> queue[i].1 <= queue[j].1 <= queue[i].1 + 1
  }

  ghost predicate QueueSound(g: Graph, root: string, limit: nat, queue: seq<(string, nat)>) {
    forall i :: 0 <= i < |queue| ==>
      queue[i].0 in g && queue[i].1 <= limit && queue[i].0 in Within(g, root, queue[i].1)
  }

  /** Visited identifiers carry their true distance, within the cap. */
  ghost predicate Exact(g: Graph, root: string, limit: nat, visited: map<string, nat>) {
    forall id :: id in visited ==> id in g && visited[id] <= limit && AtDistance(g, root, id, visited[id])
  }

  /** Neighbours of an expanded identifier are visited or queued one step further at most. */
  ghost predicate Expanded(g: Graph, limit: nat, visited: map<string, nat>, queue: seq<(string, nat)>) {
    forall y, id :: y in visited && visited[y] < limit && id in Next(g, y) ==>
      id in visited || Queued(queue, id, visited[y] + 1)
  }

  ghost predicate Rooted(root: string, visited: map<string, nat>, queue: seq<(string, nat)>) {
    root in visited || Queued(queue, root, 0)
  }

  /** The node list is the visited identifiers with their depths, once each, nearest first,
      and none beyond anything still queued. */
  ghost predicate Listed(w: Walk) {
    && (forall i :: 0 <= i < |w.nodes| ==> w.nodes[i].0 in w.visited && w.visited[w.nodes[i].0] == w.nodes[i].1)
    && (forall i, j :: 0 <= i < j < |w.nodes| ==> w.nodes[i].0 != w.nodes[j].0 && w.nodes[i].1 <= w.nodes[j].1)
    && (forall id :: id in w.visited ==> (id, w.visited[id]) in w.nodes)
    && (forall i, j :: 0 <= i < |w.nodes| && 0 <= j < |w.queue| ==> w.nodes[i].1 <= w.queue[j].1)
  }

  ghost predicate Walking(g: Graph, root: string, limit: nat, w: Walk) {
    && Layered(w.queue) && QueueSound(g, root, limit, w.queue) && Exact(g, root, limit, w.visited)
    && Expanded(g, limit, w.visited, w.queue) && Rooted(root, w.visited, w.queue) && Listed(w)
  }

  lemma QueuedInTime(queue: seq<(string, nat)>, id: string, depth: int, k: int)
    requires Queued(queue, id, depth) && depth <= k
    ensures QueuedBy(queue, k)
  {
    var i :| 0 <= i < |queue| && queue[i].0 == id && queue[i].1 <= depth;
  }

  /** A neighbour of something visited close enough, itself not visited, is queued. */
  lemma CoveredByNeighbor(g: Graph, root: string, limit: nat, visited: map<string, nat>,
      queue: seq<(string, nat)>, y: string, id: string, k: nat)
    requires Exact(g, root, limit, visited) && Expanded(g, limit, visited, queue)
    requires 0 < k <= limit && y in Within(g, root, k - 1) && id in Next(g, y) && y in visited && id !in visited
    ensures QueuedBy(queue, k)
  {
    NotFarther(g, root, y, visited[y], k - 1);
    QueuedInTime(queue, id, visited[y] + 1, k);
  }

  lemma RootCovered(root: string, visited: map<string, nat>, queue: seq<(string, nat)>)
    requires Rooted(root, visited, queue) && root !in visited
    ensures QueuedBy(queue, 0)
  {
    QueuedInTime(queue, root, 0, 0);
  }

  /** A neighbour of something close enough, visited or covered itself, is covered. */
  lemma CoveredNext(g: Graph, root: string, limit: nat, visited: map<string, nat>, queue: seq<(string, nat)>,
      id: string, k: nat)
    requires Exact(g, root, limit, visited) && Expanded(g, limit, visited, queue)
    requires 0 < k <= limit && id in Within(g, root, k) && id !in visited
    requires forall y :: y in Within(g, root, k - 1) && y !in visited ==> QueuedBy(queue, k - 1)
    ensures QueuedBy(queue, k)
  {
    if id in Within(g, root, k - 1) {
      assert QueuedBy(queue, k - 1);
    } else {
      var y := LastHop(g, root, id, k);
      if y in visited {
        CoveredByNeighbor(g, root, limit, visited, queue, y, id, k);
      } else {
        assert QueuedBy(queue, k - 1);
      }
    }
  }

  /** Anything close enough and not yet visited has an entry at least as close in the queue. */
  lemma {:induction false} Covered(g: Graph, root: string, limit: nat, visited: map<string, nat>,
      queue: seq<(string, nat)>, id: string, k: nat)
    requires Exact(g, root, limit, visited) && Expanded(g, limit, visited, queue) && Rooted(root, visited, queue)
    requires k <= limit && id in Within(g, root, k) && id !in visited
    ensures QueuedBy(queue, k)
    decreases k
  {
    if k == 0 {
      RootCovered(root, visited, queue);
    } else {
      forall y | y in Within(g, root, k - 1) && y !in visited
        ensures QueuedBy(queue, k - 1)
      {
        Covered(g, root, limit, visited, queue, y, k - 1);
      }
      CoveredNext(g, root, limit, visited, queue, id, k);
    }
  }

  lemma FrontIsLeast(queue: seq<(string, nat)>, k: int)
    requires Layered(queue) && QueuedBy(queue, k)
    ensures queue != [] && queue[0].1 <= k
  {
  }

  /** The front of the queue, if not visited yet, is queued at its true distance. */
  lemma FrontIsExact(g: Graph, root: string, limit: nat, w: Walk)
    requires Walking(g, root, limit, w) && w.queue != [] && w.queue[0].0 !in w.visited
    ensures AtDistance(g, root, w.queue[0].0, w.queue[0].1)
  {
    var (id, depth) := w.queue[0];
    if depth > 0 && id in Within(g, root, depth - 1) {
      Covered(g, root, limit, w.visited, w.queue, id, depth - 1);
      FrontIsLeast(w.queue, depth - 1);
    }
  }

  /** Entries for the neighbours of a node, one step further out. */
  function Entries(ids: seq<string>, depth: nat): seq<(string, nat)> {
    seq(|ids|, i requires 0 <= i < |ids| => (ids[i], depth + 1))
  }

  /** What is queued when the front is reported: its neighbours above the cap, nothing at it. */
  ghost predicate Pushes(g: Graph, limit: nat, entry: (string, nat), found: seq<string>) {
    if entry.1 < limit then forall id :: id in found <==> id in Next(g, entry.0)
    else found == []
  }

  lemma StillQueued(queue: seq<(string, nat)>, more: seq<(string, nat)>, id: string, depth: int)
    requires queue != [] && Queued(queue, id, depth)
    ensures id == queue[0].0 || Queued(queue[1..] + more, id, depth)
  {
    var i :| 0 <= i < |queue| && queue[i].0 == id && queue[i].1 <= depth;
    if i > 0 {
      assert (queue[1..] + more)[i - 1] == queue[i];
    }
  }

  lemma FoundQueued(queue: seq<(string, nat)>, found: seq<string>, id: string, depth: nat)
    requires id in found
    ensures Queued(queue + Entries(found, depth), id, depth + 1)
  {
    var j :| 0 <= j < |found| && found[j] == id;
    assert (queue + Entries(found, depth))[|queue| + j] == (id, depth + 1);
  }

  /** Dropping a front that is visited keeps every promise. */
  lemma SkipKeepsWalking(g: Graph, root: string, limit: nat, w: Walk)
    requires Walking(g, root, limit, w) && w.queue != [] && w.queue[0].0 in w.visited
    ensures Walking(g, root, limit, w.(queue := w.queue[1..]))
  {
    assert w.queue[1..] + [] == w.queue[1..];
    forall y, id | y in w.visited && w.visited[y] < limit && id in Next(g, y) && id !in w.visited
      ensures Queued(w.queue[1..], id, w.visited[y] + 1)
    {
      StillQueued(w.queue, [], id, w.visited[y] + 1);
    }
    if root !in w.visited {
      StillQueued(w.queue, [], root, 0);
    }
  }

  lemma ReportKeepsQueue(g: Graph, root: string, limit: nat, queue: seq<(string, nat)>, found: seq<string>)
    requires Layered(queue) && QueueSound(g, root, limit, queue) && queue != []
    requires forall id, z :: id in g && z in g[id] ==> z in g
    requires Pushes(g, limit, queue[0], found)
    ensures var longer := queue[1..] + Entries(found, queue[0].1);
      && Layered(longer) && QueueSound(g, root, limit, longer)
      && forall j :: 0 <= j < |longer| ==> queue[0].1 <= longer[j].1
  {
    var (id, depth) := queue[0];
    var rest, more := queue[1..], Entries(found, queue[0].1);
    forall i | 0 <= i < |more|
      ensures more[i].0 in g && more[i].1 <= limit && more[i].0 in Within(g, root, more[i].1)
    {
      assert found[i] in found && found[i] in Next(g, id);
    }
    forall i | 0 <= i < |rest|
      ensures depth <= rest[i].1 <= depth + 1
    {
      assert rest[i] == queue[i + 1];
    }
  }

  lemma ReportKeepsExpanded(g: Graph, limit: nat, visited: map<string, nat>, queue: seq<(string, nat)>,
      found: seq<string>)
    requires queue != [] && Expanded(g, limit, visited, queue) && Pushes(g, limit, queue[0], found)
    ensures Expanded(g, limit, visited[queue[0].0 := queue[0].1], queue[1..] + Entries(found, queue[0].1))
  {
    var (front, depth) := queue[0];
    var more := Entries(found, depth);
    forall y, id | y in visited && y != front && visited[y] < limit && id in Next(g, y) && id !in visited && id != front
      ensures Queued(queue[1..] + more, id, visited[y] + 1)
    {
      StillQueued(queue, more, id, visited[y] + 1);
    }
    forall id | depth < limit && id in Next(g, front)
      ensures Queued(queue[1..] + more, id, depth + 1)
    {
      FoundQueued(queue[1..], found, id, depth);
    }
  }

  lemma ReportKeepsListed(w: Walk, queue: seq<(string, nat)>)
    requires w.queue != [] && Listed(w) && w.queue[0].0 !in w.visited
    requires forall j :: 0 <= j < |queue| ==> w.queue[0].1 <= queue[j].1
    ensures Listed(Walk(queue, w.visited[w.queue[0].0 := w.queue[0].1], w.nodes + [w.queue[0]], w.edges))
  {
    var longer := w.nodes + [w.queue[0]];
    assert longer[|w.nodes|] == w.queue[0];
    assert forall node :: node in w.nodes ==> node in longer;
  }

  lemma ReportKeepsWalking(g: Graph, root: string, limit: nat, w: Walk, found: seq<string>,
      edges: seq<(string, string)>)
    requires Walking(g, root, limit, w) && w.queue != [] && w.queue[0].0 !in w.visited
    requires forall id, z :: id in g && z in g[id] ==> z in g
    requires Pushes(g, limit, w.queue[0], found)
    ensures Walking(g, root, limit,
        Walk(w.queue[1..] + Entries(found, w.queue[0].1), w.visited[w.queue[0].0 := w.queue[0].1],
                                         w.nodes + [w.queue[0]], edges))
  {
    var queue := w.queue[1..] + Entries(found, w.queue[0].1);
    FrontIsExact(g, root, limit, w);
    ReportKeepsQueue(g, root, limit, w.queue, found);
    ReportKeepsExpanded(g, limit, w.visited, w.queue, found);
    ReportKeepsListed(w, queue);
    if root !in w.visited {
      StillQueued(w.queue, Entries(found, w.queue[0].1), root, 0);
    }
  }

  /** Identifiers above the depth cap have their references listed. */
  predicate Opened(visited: map<string, nat>, limit: nat, id: string) { id in visited && visited[id] < limit }

  predicate IsReference(links: Links, a: string, b: string) { b in Next(links.outgoing, a) }

  /** The edges are exactly the references touching an opened node, once each. */
  ghost predicate EdgesExact(links: Links, limit: nat, visited: map<string, nat>, edges: seq<(string, string)>) {
    && Distinct(edges)
    && forall a, b :: (a, b) in edges <==>
        IsReference(links, a, b) && (Opened(visited, limit, a) || Opened(visited, limit, b))
  }

  function AddEdge(edges: seq<(string, string)>, edge: (string, string)): seq<(string, string)> {
    if edge in edges then edges else edges + [edge]
  }

  /** Following references from a node: every target is queued, every edge listed once. */
  method Follow(id: string, depth: nat, targets: seq<string>, forward: bool, queue: seq<(string, nat)>,
      edges: seq<(string, string)>)
      returns (queue': seq<(string, nat)>, edges': seq<(string, string)>)
    requires Distinct(edges)
    ensures queue' == queue + Entries(targets, depth)
    ensures Distinct(edges')
    ensures forall e :: e in edges' <==>
        e in edges || exists t :: t in targets && e == if forward then (id, t) else (t, id)
  {
    queue', edges' := queue, edges;
    for i := 0 to |targets|
      invariant queue' == queue + Entries(targets[..i], depth)
      invariant Distinct(edges')
      invariant forall e :: e in edges' <==>
          e in edges || exists t :: t in targets[..i] && e == if forward then (id, t) else (t, id)
    {
      var edge := if forward then (id, targets[i]) else (targets[i], id);
      assert targets[..i + 1] == targets[..i] + [targets[i]];
      assert Entries(targets[..i + 1], depth) == Entries(targets[..i], depth) + [(targets[i], depth + 1)];
      edges' := AddEdge(edges', edge);
      queue' := queue' + [(targets[i], depth + 1)];
    }
    assert targets[..|targets|] == targets;
  }

  /** A reference into or out of a node. */
  ghost predicate Touches(links: Links, id: string, edge: (string, string))
    requires id in links.outgoing && id in links.incoming
  {
    (edge.0 == id && edge.1 in links.outgoing[id]) || (edge.1 == id && edge.0 in links.incoming[id])
  }

  /** Listing the references in and out of a freshly opened node keeps the edges exact. */
  lemma FollowedBothWays(links: Links, limit: nat, visited: map<string, nat>, id: string, depth: nat,
                         edges: seq<(string, string)>, edges': seq<(string, string)>)
    requires Mirrored(links) && EdgesExact(links, limit, visited, edges) && id !in visited
    requires id in links.outgoing && id in links.incoming && depth < limit
    requires Distinct(edges') && forall e :: e in edges' <==> e in edges || Touches(links, id, e)
    ensures EdgesExact(links, limit, visited[id := depth], edges')
  {
    forall a
      ensures IsReference(links, a, id) <==> a in links.incoming[id]
    {
      assert MirroredAt(links, a, id);
    }
  }

  method FollowBoth(links: Links, id: string, depth: nat, queue: seq<(string, nat)>, edges: seq<(string, string)>)
      returns (queue': seq<(string, nat)>, edges': seq<(string, string)>)
    requires InOrder(links) && id in links.outgoing && Distinct(edges)
    ensures queue' == queue + Entries(Around(links, id), depth)
    ensures Distinct(edges') && forall e :: e in edges' <==> e in edges || Touches(links, id, e)
  {
    var targets, sources := links.targets[id], links.sources[id];
    assert ListedAt(links.outgoing, links.targets, id) && ListedAt(links.incoming, links.sources, id);
    queue', edges' := Follow(id, depth, targets, true, queue, edges);
    queue', edges' := Follow(id, depth, sources, false, queue', edges');
    assert Entries(Around(links, id), depth) == Entries(targets, depth) + Entries(sources, depth);
  }

  /** What is queued for an entry: everything around it above the cap, nothing at the cap. */
  function Pushed(links: Links, limit: nat, entry: (string, nat)): seq<string> {
    if entry.1 < limit then Around(links, entry.0) else []
  }

  /** The walk after its front entry is reported. */
  function Reported(links: Links, limit: nat, w: Walk, edges: seq<(string, string)>): Walk
    requires w.queue != []
  {
    var entry := w.queue[0];
    Walk(w.queue[1..] + Entries(Pushed(links, limit, entry), entry.1), w.visited[entry.0 := entry.1],
         w.nodes + [entry], edges)
  }

  /** Above the cap the references of a node are followed both ways. */
  method Open(links: Links, limit: nat, ghost visited: map<string, nat>, entry: (string, nat),
      queue: seq<(string, nat)>, edges: seq<(string, string)>)
      returns (queue': seq<(string, nat)>, edges': seq<(string, string)>)
    requires Mirrored(links) && EdgesExact(links, limit, visited, edges)
    requires entry.0 !in visited && entry.0 in links.outgoing && entry.1 < limit
    ensures queue' == queue + Entries(Around(links, entry.0), entry.1)
    ensures EdgesExact(links, limit, visited[entry.0 := entry.1], edges')
  {
    queue', edges' := FollowBoth(links, entry.0, entry.1, queue, edges);
    FollowedBothWays(links, limit, visited, entry.0, entry.1, edges, edges');
  }

  lemma AtTheCap(links: Links, limit: nat, visited: map<string, nat>, entry: (string, nat),
      edges: seq<(string, string)>)
    requires EdgesExact(links, limit, visited, edges) && entry.0 !in visited && entry.1 >= limit
    ensures EdgesExact(links, limit, visited[entry.0 := entry.1], edges)
  {
  }

  /** One unvisited entry: report it and, above the cap, follow its references both ways. */
  method Visit(links: Links, limit: nat, w: Walk) returns (w': Walk)
    requires Mirrored(links) && EdgesExact(links, limit, w.visited, w.edges)
    requires w.queue != [] && w.queue[0].0 !in w.visited && w.queue[0].0 in links.outgoing
    ensures w' == Reported(links, limit, w, w'.edges)
    ensures EdgesExact(links, limit, w'.visited, w'.edges)
  {
    var entry := w.queue[0];
    var queue, edges := w.queue[1..], w.edges;
    if entry.1 < limit {
      queue, edges := Open(links, limit, w.visited, entry, queue, edges);
    } else {
      AtTheCap(links, limit, w.visited, entry, edges);
      assert queue + Entries([], entry.1) == queue;
    }
    w' := Walk(queue, w.visited[entry.0 := entry.1], w.nodes + [entry], edges);
  }

  ghost predicate Sound(links: Links, root: string, limit: nat, w: Walk) {
    Walking(Both(links), root, limit, w) && EdgesExact(links, limit, w.visited, w.edges)
  }

  lemma PushedAround(links: Links, limit: nat, entry: (string, nat))
    requires InOrder(links)
    ensures Pushes(Both(links), limit, entry, Pushed(links, limit, entry))
  {
    AroundIsBoth(links, entry.0);
  }

  lemma ReportedIsWalking(links: Links, root: string, limit: nat, w: Walk, edges: seq<(string, string)>)
    requires Mirrored(links) && Walking(Both(links), root, limit, w) && w.queue != [] && w.queue[0].0 !in w.visited
    ensures Walking(Both(links), root, limit, Reported(links, limit, w, edges))
  {
    var g := Both(links);
    assert forall id, z :: id in g && z in g[id] ==> z in g by {
      BothClosed(links);
    }
    PushedAround(links, limit, w.queue[0]);
    ReportKeepsWalking(g, root, limit, w, Pushed(links, limit, w.queue[0]), edges);
  }

  lemma FrontIsKnown(links: Links, root: string, limit: nat, w: Walk)
    requires Walking(Both(links), root, limit, w) && w.queue != []
    ensures w.queue[0].0 in links.outgoing
  {
  }

  function IdsOf(entries: seq<(string, nat)>): seq<string> {
    seq(|entries|, i requires 0 <= i < |entries| => entries[i].0)
  }

  /** Every identifier queued so far, in order: the root, then what each node queued. */
  function Trail(links: Links, root: string, limit: nat, nodes: seq<(string, nat)>): seq<string> {
    if nodes == [] then [root]
    else
      var n := |nodes| - 1;
      Trail(links, root, limit, nodes[..n]) + Pushed(links, limit, nodes[n])
  }

  /** Of a trail, `popped` entries have been taken: `reported` lists them, each where it first
      occurs, and `queue` is the rest. */
  ghost predicate Popped(trail: seq<string>, popped: nat, reported: seq<string>, queue: seq<string>) {
    popped <= |trail| && reported == Unique(trail[..popped]) && queue == trail[popped..]
  }

  ghost predicate Traced(links: Links, root: string, limit: nat, w: Walk, popped: nat) {
    Popped(Trail(links, root, limit, w.nodes), popped, IdsOf(w.nodes), IdsOf(w.queue))
  }

  /** The entry popped last was new. */
  ghost predicate JustReported(links: Links, root: string, limit: nat, w: Walk, popped: nat) {
    var trail := Trail(links, root, limit, w.nodes);
    0 < popped <= |trail| && trail[popped - 1] !in trail[..popped - 1]
  }

  lemma FrontIsNew(w: Walk, done: seq<string>)
    requires Listed(w) && w.queue != [] && IdsOf(w.nodes) == Unique(done)
    ensures w.queue[0].0 in w.visited <==> w.queue[0].0 in done
  {
    UniqueElements(done);
    var id := w.queue[0].0;
    if id in w.visited {
      var i :| 0 <= i < |w.nodes| && w.nodes[i] == (id, w.visited[id]);
      assert IdsOf(w.nodes)[i] == id;
    }
    if id in done {
      var i :| 0 <= i < |w.nodes| && IdsOf(w.nodes)[i] == id;
      assert w.nodes[i].0 in w.visited;
    }
  }

  lemma PopOld(trail: seq<string>, popped: nat, reported: seq<string>, queue: seq<string>)
    requires Popped(trail, popped, reported, queue) && queue != [] && queue[0] in trail[..popped]
    ensures Popped(trail, popped + 1, reported, queue[1..])
  {
    UniqueElements(trail[..popped]);
    assert trail[..popped + 1][..popped] == trail[..popped];
  }

  /** The trail may grow behind what was there. */
  lemma PopNew(trail: seq<string>, popped: nat, reported: seq<string>, queue: seq<string>, more: seq<string>)
    requires Popped(trail, popped, reported, queue) && queue != [] && queue[0] !in trail[..popped]
    ensures Popped(trail + more, popped + 1, reported + [queue[0]], queue[1..] + more)
    ensures (trail + more)[popped] !in (trail + more)[..popped]
  {
    UniqueElements(trail[..popped]);
    var longer := trail + more;
    assert longer[..popped + 1][..popped] == longer[..popped] == trail[..popped];
    assert longer[popped] == trail[popped] == queue[0];
    assert longer[popped + 1..] == queue[1..] + more;
  }

  lemma SkipIsTraced(links: Links, root: string, limit: nat, w: Walk, popped: nat)
    requires Traced(links, root, limit, w, popped) && Listed(w) && w.queue != [] && w.queue[0].0 in w.visited
    ensures Traced(links, root, limit, w.(queue := w.queue[1..]), popped + 1)
  {
    var trail := Trail(links, root, limit, w.nodes);
    FrontIsNew(w, trail[..popped]);
    PopOld(trail, popped, IdsOf(w.nodes), IdsOf(w.queue));
    assert IdsOf(w.queue[1..]) == IdsOf(w.queue)[1..];
  }

  lemma ReportIsTraced(links: Links, root: string, limit: nat, w: Walk, popped: nat, edges: seq<(string, string)>)
    requires Traced(links, root, limit, w, popped) && Listed(w) && w.queue != [] && w.queue[0].0 !in w.visited
    ensures Traced(links, root, limit, Reported(links, limit, w, edges), popped + 1)
    ensures JustReported(links, root, limit, Reported(links, limit, w, edges), popped + 1)
  {
    var trail, more := Trail(links, root, limit, w.nodes), Pushed(links, limit, w.queue[0]);
    FrontIsNew(w, trail[..popped]);
    PopNew(trail, popped, IdsOf(w.nodes), IdsOf(w.queue), more);
    LongerTrail(links, root, limit, w.nodes, w.queue[0]);
    LongerIds(w.nodes, w.queue, more);
  }

  lemma LongerIds(nodes: seq<(string, nat)>, queue: seq<(string, nat)>, more: seq<string>)
    requires queue != []
    ensures IdsOf(nodes + [queue[0]]) == IdsOf(nodes) + [IdsOf(queue)[0]]
    ensures IdsOf(queue[1..] + Entries(more, queue[0].1)) == IdsOf(queue)[1..] + more
  {
  }

  lemma LongerTrail(links: Links, root: string, limit: nat, nodes: seq<(string, nat)>, entry: (string, nat))
    ensures Trail(links, root, limit, nodes + [entry]) == Trail(links, root, limit, nodes) + Pushed(links, limit, entry)
  {
    assert (nodes + [entry])[..|nodes|] == nodes;
  }

  lemma Start(links: Links, root: string, limit: nat)
    requires Mirrored(links) && root in links.outgoing
    ensures Sound(links, root, limit, Walk([(root, 0)], map[], [], []))
    ensures Traced(links, root, limit, Walk([(root, 0)], map[], [], []), 0)
  {
    var queue := [(root, 0)];
    assert queue[0] == (root, 0);
    assert Queued(queue, root, 0);
    assert IdsOf(queue) == [root];
  }

  /** A turn visits something new, or shortens the queue. */
  predicate Progresses(all: set<string>, w: Walk, w': Walk) {
    || all - w'.visited.Keys < all - w.visited.Keys
    || (w'.visited.Keys == w.visited.Keys && |w'.queue| < |w.queue|)
  }

  /** One turn of the loop: the front of the queue is dropped or reported. */
  method Advance(links: Links, ghost root: string, limit: nat, w: Walk, ghost popped: nat) returns (w': Walk)
    requires Mirrored(links) && Sound(links, root, limit, w) && Traced(links, root, limit, w, popped)
    requires w.queue != []
    ensures Sound(links, root, limit, w') && Traced(links, root, limit, w', popped + 1)
    ensures Progresses(links.outgoing.Keys, w, w') && |w'.nodes| <= |w.nodes| + 1
    ensures |w'.nodes| > |w.nodes| ==> JustReported(links, root, limit, w', popped + 1)
  {
    FrontIsKnown(links, root, limit, w);
    Progress(links.outgoing.Keys, w.visited, w.queue[0]);
    if w.queue[0].0 in w.visited {
      SkipKeepsWalking(Both(links), root, limit, w);
      SkipIsTraced(links, root, limit, w, popped);
      return w.(queue := w.queue[1..]);
    }
    w' := Visit(links, limit, w);
    ReportedIsWalking(links, root, limit, w, w'.edges);
    ReportIsTraced(links, root, limit, w, popped, w'.edges);
  }

  method WalkGraph(links: Links, root: string, limit: nat, nodeLimit: nat) returns (w: Walk, ghost popped: nat)
    requires Mirrored(links) && root in links.outgoing && nodeLimit > 0
    ensures Sound(links, root, limit, w) && Traced(links, root, limit, w, popped)
    ensures w.queue == [] || |w.nodes| == nodeLimit
    ensures |w.nodes| <= nodeLimit
    ensures |w.nodes| == nodeLimit ==> JustReported(links, root, limit, w, popped)
  {
    w, popped := Walk([(root, 0)], map[], [], []), 0;
    Start(links, root, limit);
    while w.queue != [] && |w.nodes| < nodeLimit
      invariant Sound(links, root, limit, w) && Traced(links, root, limit, w, popped)
      invariant |w.nodes| <= nodeLimit
      invariant |w.nodes| == nodeLimit ==> JustReported(links, root, limit, w, popped)
      decreases links.outgoing.Keys - w.visited.Keys, |w.queue|
    {
      w := Advance(links, root, limit, w, popped);
      popped := popped + 1;
    }
  }

  lemma Progress(all: set<string>, visited: map<string, nat>, entry: (string, nat))
    ensures entry.0 in all && entry.0 !in visited ==> all - visited[entry.0 := entry.1].Keys < all - visited.Keys
  {
    var longer := visited[entry.0 := entry.1];
    assert longer.Keys == visited.Keys + {entry.0};
    if entry.0 in all && entry.0 !in visited {
      assert entry.0 in all - visited.Keys && entry.0 !in all - longer.Keys;
    }
  }

  /** With an empty queue the walk has found everything within the cap, and nothing else. */
  lemma Complete(links: Links, root: string, limit: nat, w: Walk)
    requires Sound(links, root, limit, w) && w.queue == []
    ensures forall id :: id in w.visited <==> id in Within(Both(links), root, limit)
  {
    var g := Both(links);
    forall id
      ensures id in w.visited <==> id in Within(g, root, limit)
    {
      if id in w.visited {
        WithinGrows(g, root, w.visited[id], limit);
      } else if id in Within(g, root, limit) {
        Covered(g, root, limit, w.visited, w.queue, id, limit);
      }
    }
  }

  /** Cut short or not, nothing left out is nearer than anything reported. */
  lemma NearestFirst(links: Links, root: string, limit: nat, w: Walk, id: string, k: nat)
    requires Sound(links, root, limit, w)
    requires k <= limit && id in Within(Both(links), root, k) && id !in w.visited
    ensures forall i :: 0 <= i < |w.nodes| ==> w.nodes[i].1 <= k
  {
    Covered(Both(links), root, limit, w.visited, w.queue, id, k);
  }
}
