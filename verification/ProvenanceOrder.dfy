/** The provenance walk against a definition without a queue: layer by layer, everything is
    named in order, and a node is reported where it is first named. */
module ProvenanceOrder {
  import opened Prelude
  import opened Distances
  import opened ProvenanceWalk

  /** What the listed records name, one after the other. */
  function NamedBy(links: Links, ids: seq<string>): seq<string> {
    if ids == [] then []
    else
      var n := |ids| - 1;
      NamedBy(links, ids[..n]) + Around(links, ids[n])
  }

  /** Every naming of a record within n links of the root, repeats included. */
  function Namings(links: Links, root: string, n: nat): seq<string> {
    if n == 0 then [root] else [root] + NamedBy(links, Unique(Namings(links, root, n - 1)))
  }

  /** The records within n links of the root in the order the walk reports them. */
  function ReportOrder(links: Links, root: string, n: nat): seq<string> { Unique(Namings(links, root, n)) }

  /** The last naming is not the first of its record. */
  predicate EndsInRepeat(namings: seq<string>) {
    namings != [] && namings[|namings| - 1] in namings[..|namings| - 1]
  }

  lemma {:induction false} NamedAround(links: Links, ids: seq<string>, z: string)
    ensures z in NamedBy(links, ids) <==> exists id :: id in ids && z in Around(links, id)
  {
    if ids != [] {
      var n := |ids| - 1;
      NamedAround(links, ids[..n], z);
      assert ids == ids[..n] + [ids[n]];
    }
  }

  lemma {:induction false} RootIsNear(links: Links, root: string, n: nat)
    requires Mirrored(links) && n > 0
    ensures Within(Both(links), root, n) == {root} + Neighbors(Both(links), Within(Both(links), root, n - 1))
  {
    var g := Both(links);
    if n > 1 {
      RootIsNear(links, root, n - 1);
      WithinGrows(g, root, n - 2, n - 1);
      assert Neighbors(g, Within(g, root, n - 2)) <= Neighbors(g, Within(g, root, n - 1));
    }
  }

  lemma NamedIsNeighbors(links: Links, ids: seq<string>, all: set<string>)
    requires Mirrored(links) && forall id :: id in ids <==> id in all
    ensures forall z :: z in NamedBy(links, ids) <==> z in Neighbors(Both(links), all)
  {
    forall z
      ensures z in NamedBy(links, ids) <==> z in Neighbors(Both(links), all)
    {
      NamedAround(links, ids, z);
      forall id
        ensures z in Around(links, id) <==> z in Next(Both(links), id)
      {
        AroundIsBoth(links, id);
      }
    }
  }

  /** What is named is what lies within reach. */
  lemma {:induction false} NamingsAreWithin(links: Links, root: string, n: nat)
    requires Mirrored(links)
    ensures forall id :: id in Namings(links, root, n) <==> id in Within(Both(links), root, n)
  {
    if n > 0 {
      var before := Namings(links, root, n - 1);
      NamingsAreWithin(links, root, n - 1);
      UniqueElements(before);
      NamedIsNeighbors(links, Unique(before), Within(Both(links), root, n - 1));
      RootIsNear(links, root, n);
    }
  }

  /** The order lists each record within reach once. */
  lemma OrderIsWithin(links: Links, root: string, n: nat)
    requires Mirrored(links)
    ensures Distinct(ReportOrder(links, root, n))
    ensures forall id :: id in ReportOrder(links, root, n) <==> id in Within(Both(links), root, n)
    ensures |ReportOrder(links, root, n)| == |Within(Both(links), root, n)|
  {
    var order := ReportOrder(links, root, n);
    NamingsAreWithin(links, root, n);
    UniqueElements(Namings(links, root, n));
    DistinctSize(order);
    assert Elements(order) == Within(Both(links), root, n);
  }

  // ---- prefixes ----

  lemma {:induction false} UniquePrefix(a: seq<string>, b: seq<string>)
    requires a <= b
    ensures Unique(a) <= Unique(b)
    decreases |b|
  {
    if |a| < |b| {
      UniquePrefix(a, b[..|b| - 1]);
    } else {
      assert a == b;
    }
  }

  lemma {:induction false} NamedPrefix(links: Links, a: seq<string>, b: seq<string>)
    requires a <= b
    ensures NamedBy(links, a) <= NamedBy(links, b)
    decreases |b|
  {
    if |a| < |b| {
      NamedPrefix(links, a, b[..|b| - 1]);
    } else {
      assert a == b;
    }
  }

  lemma NextNamings(links: Links, root: string, a: seq<string>, b: seq<string>)
    requires a <= b
    ensures [root] + NamedBy(links, Unique(a)) <= [root] + NamedBy(links, Unique(b))
  {
    UniquePrefix(a, b);
    NamedPrefix(links, Unique(a), Unique(b));
  }

  lemma {:induction false} NamingsGrow(links: Links, root: string, n: nat)
    ensures Namings(links, root, n) <= Namings(links, root, n + 1)
  {
    if n > 0 {
      NamingsGrow(links, root, n - 1);
      NextNamings(links, root, Namings(links, root, n - 1), Namings(links, root, n));
    }
  }

  /** A deeper walk starts like a shallower one. */
  lemma OrderGrows(links: Links, root: string, n: nat)
    ensures ReportOrder(links, root, n) <= ReportOrder(links, root, n + 1)
  {
    NamingsGrow(links, root, n);
    UniquePrefix(Namings(links, root, n), Namings(links, root, n + 1));
  }

  lemma SameMembersPrefix(a: seq<string>, b: seq<string>)
    requires a <= b && Distinct(b) && forall x :: x in b ==> x in a
    ensures a == b
  {
    assert Elements(a) == Elements(b) && Distinct(a);
    DistinctSize(a);
    DistinctSize(b);
  }

  lemma PrefixChain(a: seq<string>, b: seq<string>, c: seq<string>)
    requires a <= b && b <= c
    ensures a <= c
  {
  }

  // ---- the walk follows the order ----

  ghost predicate Ascending(nodes: seq<(string, nat)>) {
    forall i, j :: 0 <= i < j < |nodes| ==> nodes[i].1 <= nodes[j].1
  }

  /** How many of the nodes lie within depth d, nearest first as they are. */
  function Upto(nodes: seq<(string, nat)>, d: nat): (m: nat)
    ensures m <= |nodes|
  {
    if nodes == [] || nodes[|nodes| - 1].1 <= d then |nodes| else Upto(nodes[..|nodes| - 1], d)
  }

  lemma {:induction false} UptoSplits(nodes: seq<(string, nat)>, d: nat)
    requires Ascending(nodes)
    ensures forall i :: 0 <= i < |nodes| ==> (i < Upto(nodes, d) <==> nodes[i].1 <= d)
  {
    if nodes != [] && nodes[|nodes| - 1].1 > d {
      UptoSplits(nodes[..|nodes| - 1], d);
    }
  }

  lemma {:induction false} TrailAbove(links: Links, root: string, limit: nat, nodes: seq<(string, nat)>)
    requires forall i :: 0 <= i < |nodes| ==> nodes[i].1 < limit
    ensures Trail(links, root, limit, nodes) == [root] + NamedBy(links, IdsOf(nodes))
  {
    if nodes != [] {
      var n := |nodes| - 1;
      TrailAbove(links, root, limit, nodes[..n]);
      assert IdsOf(nodes)[..n] == IdsOf(nodes[..n]);
    }
  }

  lemma {:induction false} TrailStops(links: Links, root: string, limit: nat, nodes: seq<(string, nat)>, m: nat)
    requires m <= |nodes| && forall i :: m <= i < |nodes| ==> nodes[i].1 >= limit
    ensures Trail(links, root, limit, nodes) == Trail(links, root, limit, nodes[..m])
  {
    if m < |nodes| {
      var n := |nodes| - 1;
      TrailStops(links, root, limit, nodes[..n], m);
      assert nodes[..n][..m] == nodes[..m];
    } else {
      assert nodes[..m] == nodes;
    }
  }

  /** Only the nodes above the cap have named anything. */
  lemma TrailSplits(links: Links, root: string, limit: nat, nodes: seq<(string, nat)>, m: nat)
    requires m <= |nodes| && forall i :: 0 <= i < |nodes| ==> (i < m <==> nodes[i].1 < limit)
    ensures Trail(links, root, limit, nodes) == [root] + NamedBy(links, IdsOf(nodes)[..m])
  {
    TrailStops(links, root, limit, nodes, m);
    TrailAbove(links, root, limit, nodes[..m]);
    assert IdsOf(nodes[..m]) == IdsOf(nodes)[..m];
  }

  /** What a shallower layer has named comes first. */
  lemma TrailStarts(links: Links, root: string, limit: nat, nodes: seq<(string, nat)>, d: nat)
    requires Ascending(nodes) && d < limit
    ensures [root] + NamedBy(links, IdsOf(nodes)[..Upto(nodes, d)]) <= Trail(links, root, limit, nodes)
  {
    var ids, m, all := IdsOf(nodes), Upto(nodes, d), Upto(nodes, limit - 1);
    UptoSplits(nodes, d);
    UptoSplits(nodes, limit - 1);
    TrailSplits(links, root, limit, nodes, all);
    assert m <= all by {
      if 0 < m {
        assert nodes[m - 1].1 <= d;
      }
    }
    NamedPrefix(links, ids[..m], ids[..all]);
  }

  /** True distances within the cap, each record once, nearest first. */
  ghost predicate NodesTrue(g: Graph, root: string, limit: nat, nodes: seq<(string, nat)>) {
    && Ascending(nodes) && Distinct(IdsOf(nodes))
    && forall i :: 0 <= i < |nodes| ==> nodes[i].1 <= limit && AtDistance(g, root, nodes[i].0, nodes[i].1)
  }

  ghost predicate Missing(g: Graph, root: string, nodes: seq<(string, nat)>, id: string, k: nat) {
    id in Within(g, root, k) && id !in IdsOf(nodes)
  }

  /** Whatever is missing is at least as far away as everything reported. */
  ghost predicate NodesNearest(g: Graph, root: string, limit: nat, nodes: seq<(string, nat)>) {
    forall id, k: nat :: k <= limit && Missing(g, root, nodes, id, k) ==>
      forall i :: 0 <= i < |nodes| ==> nodes[i].1 <= k
  }

  /** The nodes of a walk, cut short or not. */
  ghost predicate Reached(g: Graph, root: string, limit: nat, nodes: seq<(string, nat)>) {
    NodesTrue(g, root, limit, nodes) && NodesNearest(g, root, limit, nodes)
  }

  ghost predicate Covers(g: Graph, root: string, ids: seq<string>, d: nat) {
    forall id :: id in Within(g, root, d) ==> id in ids
  }

  lemma ReportedOnce(w: Walk)
    requires Listed(w)
    ensures Distinct(IdsOf(w.nodes)) && forall id :: id in IdsOf(w.nodes) <==> id in w.visited
  {
    forall id | id in w.visited
      ensures id in IdsOf(w.nodes)
    {
      var i :| 0 <= i < |w.nodes| && w.nodes[i] == (id, w.visited[id]);
      assert IdsOf(w.nodes)[i] == id;
    }
  }

  lemma SoundReaches(links: Links, root: string, limit: nat, w: Walk)
    requires Sound(links, root, limit, w)
    ensures Reached(Both(links), root, limit, w.nodes)
    ensures w.queue == [] ==> Covers(Both(links), root, IdsOf(w.nodes), limit)
  {
    ReportedOnce(w);
    forall id, k: nat | k <= limit && Missing(Both(links), root, w.nodes, id, k)
      ensures forall i :: 0 <= i < |w.nodes| ==> w.nodes[i].1 <= k
    {
      NearestFirst(links, root, limit, w, id, k);
    }
    if w.queue == [] {
      Complete(links, root, limit, w);
    }
  }

  /** Of the nodes, those within depth d are those reachable in d links. */
  lemma FrontIsWithin(g: Graph, root: string, limit: nat, nodes: seq<(string, nat)>, d: nat)
    requires Reached(g, root, limit, nodes)
    ensures forall i :: 0 <= i < |nodes| ==> (i < Upto(nodes, d) <==> IdsOf(nodes)[i] in Within(g, root, d))
  {
    UptoSplits(nodes, d);
    forall i | 0 <= i < |nodes|
      ensures nodes[i].1 <= d <==> nodes[i].0 in Within(g, root, d)
    {
      if nodes[i].1 <= d {
        WithinGrows(g, root, nodes[i].1, d);
      } else if nodes[i].0 in Within(g, root, d) {
        NotFarther(g, root, nodes[i].0, nodes[i].1, d);
      }
    }
  }

  /** The nodes within depth d are the first of the order. */
  ghost predicate LayerFollows(links: Links, root: string, nodes: seq<(string, nat)>, d: nat) {
    IdsOf(nodes)[..Upto(nodes, d)] <= ReportOrder(links, root, d)
  }

  lemma OnlyRoot(ids: seq<string>, root: string)
    requires Distinct(ids) && forall i :: 0 <= i < |ids| ==> ids[i] == root
    ensures ids <= [root]
  {
    DistinctSize(ids);
    SubsetSize(Elements(ids), {root});
  }

  lemma FirstLayer(links: Links, root: string, limit: nat, nodes: seq<(string, nat)>)
    requires Reached(Both(links), root, limit, nodes)
    ensures LayerFollows(links, root, nodes, 0)
  {
    FrontIsWithin(Both(links), root, limit, nodes, 0);
    OnlyRoot(IdsOf(nodes)[..Upto(nodes, 0)], root);
    UniqueFirst(root, []);
    assert [root] + [] == [root];
  }

  /** However the walk was cut short, its nodes within depth d are the first of the order. */
  lemma {:induction false} LayerIsPrefix(links: Links, root: string, limit: nat, nodes: seq<(string, nat)>,
      popped: nat, d: nat)
    requires Mirrored(links) && Reached(Both(links), root, limit, nodes) && d <= limit
    requires TakenFrom(Trail(links, root, limit, nodes), popped, IdsOf(nodes))
    ensures LayerFollows(links, root, nodes, d)
    decreases d
  {
    if d == 0 {
      FirstLayer(links, root, limit, nodes);
    } else {
      LayerIsPrefix(links, root, limit, nodes, popped, d - 1);
      if Covers(Both(links), root, IdsOf(nodes), d - 1) {
        WholeLayer(links, root, limit, nodes, d - 1);
        FrontIsWithin(Both(links), root, limit, nodes, d);
        AfterWholeLayer(links, root, limit, nodes, popped, d);
      } else {
        BrokenLayer(links, root, limit, nodes, d);
      }
    }
  }

  ghost predicate TakenFrom(trail: seq<string>, popped: nat, reported: seq<string>) {
    popped <= |trail| && reported == Unique(trail[..popped])
  }

  /** Nothing is reported beyond a layer that is not all reported. */
  lemma BrokenLayer(links: Links, root: string, limit: nat, nodes: seq<(string, nat)>, d: nat)
    requires Reached(Both(links), root, limit, nodes) && 0 < d <= limit
    requires !Covers(Both(links), root, IdsOf(nodes), d - 1) && LayerFollows(links, root, nodes, d - 1)
    ensures LayerFollows(links, root, nodes, d)
  {
    var id :| id in Within(Both(links), root, d - 1) && id !in IdsOf(nodes);
    assert Missing(Both(links), root, nodes, id, d - 1);
    UptoSplits(nodes, d - 1);
    UptoSplits(nodes, d);
    OrderGrows(links, root, d - 1);
    PrefixChain(IdsOf(nodes)[..Upto(nodes, d)], ReportOrder(links, root, d - 1), ReportOrder(links, root, d));
  }

  /** Distinct records within d links that are listed as the order lists them are a prefix
      of it. */
  lemma CutToOrder(links: Links, root: string, d: nat, ids: seq<string>, m: nat)
    requires Mirrored(links) && Distinct(ids) && m <= |ids|
    requires ids <= ReportOrder(links, root, d) || ReportOrder(links, root, d) <= ids
    requires forall i :: 0 <= i < |ids| ==> (i < m <==> ids[i] in Within(Both(links), root, d))
    ensures ids[..m] <= ReportOrder(links, root, d)
  {
    OrderIsWithin(links, root, d);
    DistinctSize(ids[..m]);
    SubsetSize(Elements(ids[..m]), Within(Both(links), root, d));
  }

  lemma AfterWholeLayer(links: Links, root: string, limit: nat, nodes: seq<(string, nat)>, popped: nat, d: nat)
    requires Mirrored(links) && Ascending(nodes) && Distinct(IdsOf(nodes)) && 0 < d <= limit
    requires TakenFrom(Trail(links, root, limit, nodes), popped, IdsOf(nodes))
    requires IdsOf(nodes)[..Upto(nodes, d - 1)] == ReportOrder(links, root, d - 1)
    requires forall i :: 0 <= i < |nodes| ==>
        (i < Upto(nodes, d) <==> IdsOf(nodes)[i] in Within(Both(links), root, d))
    ensures LayerFollows(links, root, nodes, d)
  {
    TrailStarts(links, root, limit, nodes, d - 1);
    TrailGivesOrder(Trail(links, root, limit, nodes), popped, IdsOf(nodes), Namings(links, root, d));
    CutToOrder(links, root, d, IdsOf(nodes), Upto(nodes, d));
  }

  lemma TrailGivesOrder(trail: seq<string>, popped: nat, reported: seq<string>, namings: seq<string>)
    requires TakenFrom(trail, popped, reported) && namings <= trail
    ensures reported <= Unique(namings) || Unique(namings) <= reported
  {
    if popped <= |namings| {
      UniquePrefix(trail[..popped], namings);
    } else {
      UniquePrefix(namings, trail[..popped]);
    }
  }

  lemma WholeLayer(links: Links, root: string, limit: nat, nodes: seq<(string, nat)>, d: nat)
    requires Mirrored(links) && Reached(Both(links), root, limit, nodes)
    requires LayerFollows(links, root, nodes, d) && Covers(Both(links), root, IdsOf(nodes), d)
    ensures IdsOf(nodes)[..Upto(nodes, d)] == ReportOrder(links, root, d)
  {
    var front := IdsOf(nodes)[..Upto(nodes, d)];
    OrderIsWithin(links, root, d);
    FrontIsWithin(Both(links), root, limit, nodes, d);
    forall id | id in ReportOrder(links, root, d)
      ensures id in front
    {
      var i :| 0 <= i < |nodes| && IdsOf(nodes)[i] == id;
      assert front[i] == id;
    }
    SameMembersPrefix(front, ReportOrder(links, root, d));
  }

  /** The nodes are the first of the order, and all of it when nothing is missing. */
  lemma NodesFollowOrder(links: Links, root: string, limit: nat, nodes: seq<(string, nat)>, popped: nat)
    requires Mirrored(links) && Reached(Both(links), root, limit, nodes)
    requires TakenFrom(Trail(links, root, limit, nodes), popped, IdsOf(nodes))
    ensures IdsOf(nodes) <= ReportOrder(links, root, limit)
    ensures Covers(Both(links), root, IdsOf(nodes), limit) ==> IdsOf(nodes) == ReportOrder(links, root, limit)
  {
    LayerIsPrefix(links, root, limit, nodes, popped, limit);
    UptoSplits(nodes, limit);
    assert IdsOf(nodes)[..Upto(nodes, limit)] == IdsOf(nodes);
    if Covers(Both(links), root, IdsOf(nodes), limit) {
      WholeLayer(links, root, limit, nodes, limit);
    }
  }

  lemma TrailIsNamings(links: Links, root: string, limit: nat, nodes: seq<(string, nat)>)
    requires Ascending(nodes)
    requires limit > 0 ==> IdsOf(nodes)[..Upto(nodes, limit - 1)] == ReportOrder(links, root, limit - 1)
    ensures Trail(links, root, limit, nodes) == Namings(links, root, limit)
  {
    if limit == 0 {
      TrailSplits(links, root, limit, nodes, 0);
    } else {
      UptoSplits(nodes, limit - 1);
      TrailSplits(links, root, limit, nodes, Upto(nodes, limit - 1));
    }
  }

  /** When nothing is missing everything has been named, the cap aside. */
  lemma WholeTrail(links: Links, root: string, limit: nat, nodes: seq<(string, nat)>, popped: nat)
    requires Mirrored(links) && Reached(Both(links), root, limit, nodes)
    requires TakenFrom(Trail(links, root, limit, nodes), popped, IdsOf(nodes))
    requires Covers(Both(links), root, IdsOf(nodes), limit)
    ensures Trail(links, root, limit, nodes) == Namings(links, root, limit)
  {
    if limit > 0 {
      LayerAboveCap(links, root, limit, nodes, popped);
    }
    TrailIsNamings(links, root, limit, nodes);
  }

  lemma LayerAboveCap(links: Links, root: string, limit: nat, nodes: seq<(string, nat)>, popped: nat)
    requires Mirrored(links) && Reached(Both(links), root, limit, nodes) && limit > 0
    requires TakenFrom(Trail(links, root, limit, nodes), popped, IdsOf(nodes))
    requires Covers(Both(links), root, IdsOf(nodes), limit)
    ensures IdsOf(nodes)[..Upto(nodes, limit - 1)] == ReportOrder(links, root, limit - 1)
  {
    assert Covers(Both(links), root, IdsOf(nodes), limit - 1) by {
      WithinGrows(Both(links), root, limit - 1, limit);
    }
    LayerIsPrefix(links, root, limit, nodes, popped, limit - 1);
    WholeLayer(links, root, limit, nodes, limit - 1);
  }

  /** When the entry popped last was new, and nothing queued is, something is queued exactly
      when the whole trail ends in a repeat. */
  lemma LeftoversRepeat(trail: seq<string>, popped: nat)
    requires 0 < popped <= |trail| && trail[popped - 1] !in trail[..popped - 1]
    requires forall id :: id in trail ==> id in trail[..popped]
    ensures popped < |trail| <==> EndsInRepeat(trail)
  {
    var last := trail[|trail| - 1];
    if popped < |trail| {
      assert last in trail;
      var i :| 0 <= i < popped && trail[..popped][i] == last;
      assert trail[..|trail| - 1][i] == last;
    }
  }

  /** The last naming repeats an earlier one, or its record is the last of the order. */
  lemma LastNaming(namings: seq<string>)
    requires namings != []
    ensures Unique(namings) != []
    ensures EndsInRepeat(namings) || Unique(namings)[|Unique(namings)| - 1] == namings[|namings| - 1]
  {
    UniqueElements(namings[..|namings| - 1]);
  }

  lemma PrefixRepeats(before: seq<string>, all: seq<string>)
    requires before < all && all[|all| - 1] in before
    ensures EndsInRepeat(all)
  {
    var i :| 0 <= i < |before| && before[i] == all[|all| - 1];
    assert all[..|all| - 1][i] == before[i];
  }

  lemma UniqueFirst(x: string, more: seq<string>)
    ensures Unique([x] + more) != [] && Unique([x] + more)[0] == x
  {
    UniquePrefix([x], [x] + more);
    assert [x][..0] == [];
    assert Unique([x]) == [x];
  }

  lemma RootFirst(links: Links, root: string, n: nat)
    ensures ReportOrder(links, root, n) != [] && ReportOrder(links, root, n)[0] == root
  {
    var more := if n == 0 then [] else NamedBy(links, Unique(Namings(links, root, n - 1)));
    assert Namings(links, root, n) == [root] + more;
    UniqueFirst(root, more);
  }

  lemma LinkedBothWays(links: Links, x: string, id: string)
    requires Mirrored(links) && id in Next(Both(links), x)
    ensures id in Around(links, x) && x in Around(links, id)
  {
    BothClosed(links);
    AroundIsBoth(links, x);
    AroundIsBoth(links, id);
  }

  /** The last record of an order is among the namings, and not only as the last of them. */
  ghost predicate LastNamedBefore(order: seq<string>, namings: seq<string>) {
    order != [] && namings != [] && order[|order| - 1] in namings[..|namings| - 1]
  }

  lemma RepeatsEitherWay(before: seq<string>, all: seq<string>)
    requires before <= all && (forall id :: id in all ==> id in before) && LastNamedBefore(Unique(before), all)
    ensures EndsInRepeat(all)
  {
    if |before| < |all| {
      assert all[|all| - 1] in all;
      PrefixRepeats(before, all);
    } else {
      assert before == all;
      LastNaming(all);
    }
  }

  lemma InShorter(front: seq<string>, back: seq<string>, id: string)
    requires id in front && back != []
    ensures id in (front + back)[..|front + back| - 1]
  {
    var i :| 0 <= i < |front| && front[i] == id;
    assert (front + back)[..|front + back| - 1][i] == id;
  }

  lemma InFront(order: seq<string>, x: string)
    requires x in order && x != order[|order| - 1]
    ensures x in order[..|order| - 1]
  {
    var i :| 0 <= i < |order| && order[i] == x;
    assert order[..|order| - 1][i] == x;
  }

  lemma NamedSplits(links: Links, root: string, order: seq<string>)
    requires order != []
    ensures var n := |order| - 1;
      [root] + NamedBy(links, order) == ([root] + NamedBy(links, order[..n])) + Around(links, order[n])
  {
  }

  /** A record that another one names, and that names something itself, is named before the
      last naming. */
  lemma NamedByAnother(links: Links, root: string, order: seq<string>, x: string)
    requires order != [] && x in order[..|order| - 1]
    requires order[|order| - 1] in Around(links, x) && Around(links, order[|order| - 1]) != []
    ensures LastNamedBefore(order, [root] + NamedBy(links, order))
  {
    var n := |order| - 1;
    NamedAround(links, order[..n], order[n]);
    InShorter([root] + NamedBy(links, order[..n]), Around(links, order[n]), order[n]);
    NamedSplits(links, root, order);
  }

  lemma LastHasAnother(links: Links, root: string, n: nat) returns (x: string)
    requires Mirrored(links) && |Within(Both(links), root, n)| >= 2
    ensures var order := ReportOrder(links, root, n);
      && |order| > 0 && x in order[..|order| - 1]
      && order[|order| - 1] in Around(links, x) && Around(links, order[|order| - 1]) != []
  {
    var order := ReportOrder(links, root, n);
    OrderIsWithin(links, root, n);
    RootFirst(links, root, n);
    var last := order[|order| - 1];
    assert last in order && last != root;
    x := ReachedFrom(Both(links), root, n, last);
    LinkedBothWays(links, x, last);
    InFront(order, x);
  }

  lemma LastIsNamedBefore(links: Links, root: string, n: nat)
    requires Mirrored(links) && |Within(Both(links), root, n)| >= 2
    ensures LastNamedBefore(ReportOrder(links, root, n), [root] + NamedBy(links, ReportOrder(links, root, n)))
  {
    var x := LastHasAnother(links, root, n);
    NamedByAnother(links, root, ReportOrder(links, root, n), x);
  }

  lemma SameNamed(links: Links, root: string, n: nat, d: nat)
    requires Mirrored(links) && Within(Both(links), root, n) == Within(Both(links), root, d)
    ensures forall id :: id in Namings(links, root, d) ==> id in Namings(links, root, n)
  {
    NamingsAreWithin(links, root, d);
    NamingsAreWithin(links, root, n);
  }

  /** When following links once more finds nothing new, the last naming is a repeat: every
      link is followed from both ends. */
  lemma FilledRepeats(links: Links, root: string, n: nat, d: nat)
    requires Mirrored(links) && d == n + 1 && |Within(Both(links), root, d)| >= 2
    requires Within(Both(links), root, n) == Within(Both(links), root, d)
    ensures EndsInRepeat(Namings(links, root, d))
  {
    LastIsNamedBefore(links, root, n);
    NamingsGrow(links, root, n);
    SameNamed(links, root, n, d);
    assert Namings(links, root, d) == [root] + NamedBy(links, ReportOrder(links, root, n));
    RepeatsEitherWay(Namings(links, root, n), Namings(links, root, d));
  }
}
