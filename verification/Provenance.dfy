/** The provenance graph of the encrypted store: references declared in metadata, walked
    from one record. */
module Provenance {
  import opened Prelude
  import opened Records
  import opened EncryptedStore
  import opened StoreInvariant
  import opened Sorting
  import opened Distances
  import opened ProvenanceWalk
  import opened ProvenanceOrder
  import opened Compaction

  const REFERENCE_KEYS := {
    "sourceRecordIds", "source_record_ids", "sourceIds", "source_ids", "parentRecordId", "parent_record_id",
    "derivedFrom", "derived_from", "provenance", "relatedRecordIds", "related_record_ids"}

  /** The non-empty strings an object holds directly. */
  function StringsIn(fields: map<string, Json>): set<string> {
    set key | key in fields && fields[key].Str? && fields[key].s != "" :: fields[key].s
  }

  /** What a value under a reference key names by itself. */
  function Named(value: Json): set<string> {
    match value
    case Str(s) => if s != "" then {s} else {}
    case Arr(items) =>
      (set i | 0 <= i < |items| && items[i].Str? && items[i].s != "" :: items[i].s)
      + (set i, s | 0 <= i < |items| && items[i].Obj? && s in StringsIn(items[i].fields) :: s)
    case Obj(fields) => StringsIn(fields)
    case _ => {}
  }

  /** `_references`: every value is looked at with the nearest key above it, which a list
      passes on to its items. */
  function Walked(value: Json, key: Option<string>): set<string> {
    var here := if key.Some? && key.value in REFERENCE_KEYS then Named(value) else {};
    match value
    case Obj(fields) => here + set name, s | name in fields && s in Walked(fields[name], Some(name)) :: s
    case Arr(items) => here + set i, s | 0 <= i < |items| && s in Walked(items[i], key) :: s
    case _ => here
  }

  function References(metadata: Metadata): set<string> { Walked(Obj(metadata), None) }

  datatype Report = Report(nodes: seq<(string, nat)>, edges: seq<(string, string)>, truncated: bool, maxDepth: nat)

  /** The links the live records declare, and the same links reversed. */
  ghost predicate Declared(p: Primitives, t: Tables, links: Links) {
    && Mirrored(links)
    && links.outgoing.Keys == LiveIds(t)
    && (forall id :: id in LiveIds(t) ==>
          var decoded := Decode(p, id, t.records[id]);
          decoded.Ok? && links.outgoing[id] == References(decoded.value.clear.metadata) * LiveIds(t))
  }

  predicate OpenedIn(nodes: seq<(string, nat)>, limit: nat, id: string) {
    exists node :: node in nodes && node.0 == id && node.1 < limit
  }

  /** Nothing within the cap is missing, unless the report says it is truncated. */
  ghost predicate NodesComplete(g: Graph, root: string, r: Report) {
    !r.truncated ==> forall id :: id in IdsOf(r.nodes) <==> id in Within(g, root, r.maxDepth)
  }

  /** The nodes are the first of the order in which records are first named. */
  ghost predicate NodesFirst(links: Links, root: string, r: Report, cap: nat) {
    IdsOf(r.nodes) == Take(ReportOrder(links, root, r.maxDepth), cap)
  }

  /** Something within the depth cap is not reported. */
  ghost predicate Misses(g: Graph, root: string, r: Report) {
    exists id :: id in Within(g, root, r.maxDepth) && id !in IdsOf(r.nodes)
  }

  /** Something is missing exactly when more lies within the depth cap than the node cap. The
      flag is set exactly then, and when both are equal and the last naming is a repeat. */
  ghost predicate FlagTrue(links: Links, root: string, r: Report, cap: nat) {
    var size := |Within(Both(links), root, r.maxDepth)|;
    && (Misses(Both(links), root, r) <==> size > cap)
    && (r.truncated <==> size > cap || (size == cap && EndsInRepeat(Namings(links, root, r.maxDepth))))
  }

  /** What lies within the depth cap fills the node cap, and none of it at the depth cap
      itself: then the flag is always set, with nothing missing. */
  ghost predicate FlagFilled(g: Graph, root: string, r: Report, cap: nat) {
    && r.maxDepth > 0 && Within(g, root, r.maxDepth - 1) == Within(g, root, r.maxDepth)
    && |Within(g, root, r.maxDepth)| == cap >= 2
    ==> r.truncated && !Misses(g, root, r)
  }

  /** Edges: exactly the references touching a reported node above the cap, each once. */
  ghost predicate EdgesTrue(links: Links, r: Report) {
    && Distinct(r.edges)
    && forall a, b :: (a, b) in r.edges <==>
         IsReference(links, a, b) && (OpenedIn(r.nodes, r.maxDepth, a) || OpenedIn(r.nodes, r.maxDepth, b))
  }

  lemma WalkReports(links: Links, root: string, w: Walk, r: Report)
    requires Sound(links, root, r.maxDepth, w)
    requires r.nodes == w.nodes && r.edges == w.edges && r.truncated == (w.queue != [])
    ensures Reached(Both(links), root, r.maxDepth, r.nodes) && NodesComplete(Both(links), root, r)
    ensures EdgesTrue(links, r)
  {
    VisitedAreReported(w, r.maxDepth);
    SoundReaches(links, root, r.maxDepth, w);
    NodesWithin(Both(links), root, r.maxDepth, r.nodes);
  }

  lemma NodesWithin(g: Graph, root: string, limit: nat, nodes: seq<(string, nat)>)
    requires NodesTrue(g, root, limit, nodes)
    ensures forall id :: id in IdsOf(nodes) ==> id in Within(g, root, limit)
  {
    forall i | 0 <= i < |nodes|
      ensures nodes[i].0 in Within(g, root, limit)
    {
      WithinGrows(g, root, nodes[i].1, limit);
    }
  }

  /** Counting decides what is missing. */
  lemma MissesMeans(g: Graph, root: string, r: Report, cap: nat)
    requires NodesTrue(g, root, r.maxDepth, r.nodes) && NodesComplete(g, root, r)
    requires |r.nodes| <= cap && (r.truncated ==> |r.nodes| == cap)
    ensures var size := |Within(g, root, r.maxDepth)|;
      (Misses(g, root, r) <==> size > cap) && (size > cap ==> r.truncated) && (size < cap ==> !r.truncated)
    ensures |Within(g, root, r.maxDepth)| == cap ==> |r.nodes| == cap
  {
    var ids, all := IdsOf(r.nodes), Within(g, root, r.maxDepth);
    DistinctSize(ids);
    NodesWithin(g, root, r.maxDepth, r.nodes);
    SubsetSize(Elements(ids), all);
    if Misses(g, root, r) {
      var id :| id in all && id !in ids;
      SubsetSize(Elements(ids), all - {id});
    } else {
      assert Elements(ids) == all;
    }
  }

  /** At the node cap itself the last naming decides. */
  lemma FlagAtCap(links: Links, root: string, w: Walk, popped: nat, limit: nat)
    requires Mirrored(links) && Reached(Both(links), root, limit, w.nodes)
    requires Traced(links, root, limit, w, popped) && JustReported(links, root, limit, w, popped)
    requires Covers(Both(links), root, IdsOf(w.nodes), limit)
    ensures w.queue != [] <==> EndsInRepeat(Namings(links, root, limit))
  {
    var trail := Trail(links, root, limit, w.nodes);
    WholeTrail(links, root, limit, w.nodes, popped);
    NamingsAreWithin(links, root, limit);
    UniqueElements(trail[..popped]);
    LeftoversRepeat(trail, popped);
    assert |IdsOf(w.queue)| == |trail| - popped;
  }

  lemma FlagMeans(links: Links, root: string, w: Walk, popped: nat, r: Report, cap: nat)
    requires Mirrored(links) && Traced(links, root, r.maxDepth, w, popped)
    requires Reached(Both(links), root, r.maxDepth, r.nodes) && NodesComplete(Both(links), root, r)
    requires r.nodes == w.nodes && r.truncated == (w.queue != []) && |r.nodes| <= cap
    requires r.truncated ==> |r.nodes| == cap
    requires |r.nodes| == cap ==> JustReported(links, root, r.maxDepth, w, popped)
    ensures FlagTrue(links, root, r, cap)
  {
    MissesMeans(Both(links), root, r, cap);
    if |Within(Both(links), root, r.maxDepth)| == cap {
      FlagAtCap(links, root, w, popped, r.maxDepth);
    }
  }

  lemma FilledIsFlagged(links: Links, root: string, r: Report, cap: nat)
    requires Mirrored(links) && FlagTrue(links, root, r, cap)
    ensures FlagFilled(Both(links), root, r, cap)
  {
    var g, d := Both(links), r.maxDepth;
    if d > 0 && Within(g, root, d - 1) == Within(g, root, d) && |Within(g, root, d)| >= 2 {
      FilledRepeats(links, root, d - 1, d);
    }
  }

  lemma NodesAreFirst(links: Links, root: string, w: Walk, popped: nat, r: Report, cap: nat)
    requires Mirrored(links) && Traced(links, root, r.maxDepth, w, popped)
    requires Reached(Both(links), root, r.maxDepth, r.nodes) && NodesComplete(Both(links), root, r)
    requires r.nodes == w.nodes && |r.nodes| <= cap && (r.truncated ==> |r.nodes| == cap)
    ensures NodesFirst(links, root, r, cap)
  {
    NodesFollowOrder(links, root, r.maxDepth, w.nodes, popped);
  }

  lemma VisitedAreReported(w: Walk, limit: nat)
    requires Listed(w)
    ensures forall id :: OpenedIn(w.nodes, limit, id) <==> Opened(w.visited, limit, id)
  {
  }

  /** The sources among `done` that point at `target`. */
  function Pointing(outgoing: Graph, done: set<string>, target: string): set<string> {
    set source | source in done && target in Next(outgoing, source)
  }

  method Reverse(outgoing: Graph) returns (incoming: Graph)
    ensures incoming.Keys == outgoing.Keys
    ensures forall target :: target in incoming ==> incoming[target] == Pointing(outgoing, outgoing.Keys, target)
  {
    incoming := map id | id in outgoing :: {};
    var rest := outgoing.Keys;
    while rest != {}
      invariant rest <= outgoing.Keys && incoming.Keys == outgoing.Keys
      invariant forall target :: target in incoming ==>
          incoming[target] == Pointing(outgoing, outgoing.Keys - rest, target)
      decreases rest
    {
      var source :| source in rest;
      AddSource(outgoing, outgoing.Keys - rest, source);
      assert outgoing.Keys - (rest - {source}) == (outgoing.Keys - rest) + {source};
      incoming := map id | id in incoming :: if id in outgoing[source] then incoming[id] + {source} else incoming[id];
      rest := rest - {source};
    }
    assert outgoing.Keys - rest == outgoing.Keys;
  }

  lemma AddSource(outgoing: Graph, done: set<string>, source: string)
    ensures forall target :: Pointing(outgoing, done + {source}, target)
                          == Pointing(outgoing, done, target) +
                              (if target in Next(outgoing, source) then {source} else {})
  {
  }

  lemma ReversedIsMirrored(links: Links)
    requires forall a, b :: a in links.outgoing && b in links.outgoing[a] ==> b in links.outgoing
    requires InOrder(links)
    requires forall b :: b in links.incoming ==> links.incoming[b] == Pointing(links.outgoing, links.outgoing.Keys, b)
    ensures Mirrored(links)
  {
  }

  function OutgoingOf(records: map<string, StoredRecord>): Graph {
    map id | id in records :: References(records[id].clear.metadata) * records.Keys
  }

  function SortedLists(g: Graph): Lists { map id | id in g :: Sorted(g[id]) }

  /** References are followed in the order of the identifiers. */
  ghost predicate Alphabetical(links: Links) {
    links.targets == SortedLists(links.outgoing) && links.sources == SortedLists(links.incoming)
  }

  lemma SortedIsListed(g: Graph)
    ensures ListedBy(g, SortedLists(g))
  {
    forall id
      ensures ListedAt(g, SortedLists(g), id)
    {
    }
  }

  method Declare(records: map<string, StoredRecord>) returns (links: Links)
    ensures Mirrored(links) && links.outgoing == OutgoingOf(records) && Alphabetical(links)
  {
    var outgoing := OutgoingOf(records);
    var incoming := Reverse(outgoing);
    links := Links(outgoing, incoming, SortedLists(outgoing), SortedLists(incoming));
    SortedIsListed(outgoing);
    SortedIsListed(incoming);
    ReversedIsMirrored(links);
  }

  lemma LinksAreDeclared(p: Primitives, t: Tables, records: map<string, StoredRecord>, links: Links)
    requires Mirrored(links) && links.outgoing == OutgoingOf(records) && records.Keys == LiveIds(t)
    requires forall id :: id in records ==> Decode(p, id, t.records[id]) == Ok(records[id])
    ensures Declared(p, t, links)
  {
    forall id | id in LiveIds(t)
      ensures Decode(p, id, t.records[id]).Ok?
      ensures links.outgoing[id] == References(Decode(p, id, t.records[id]).value.clear.metadata) * LiveIds(t)
    {
      assert id in records;
    }
  }

  /** The links between the live records, followed in the order of their identifiers. */
  method LinksOf(store: Store, unlocked: bool) returns (r: Result<Links>)
    ensures Readable(store.p, store.State()) && unlocked ==> r.Ok?
    ensures r.Ok? ==> Declared(store.p, store.State(), r.value) && Alphabetical(r.value)
  {
    var loaded := LoadAll(store, unlocked);
    if loaded.Err? {
      return Err;
    }
    var links := Declare(loaded.value);
    LinksAreDeclared(store.p, store.State(), loaded.value, links);
    r := Ok(links);
  }

  ghost predicate ReportTrue(links: Links, root: string, r: Report, depth: nat, cap: nat) {
    && r.maxDepth == depth && |r.nodes| <= cap && (r.truncated ==> |r.nodes| == cap)
    && Reached(Both(links), root, depth, r.nodes) && NodesComplete(Both(links), root, r) && EdgesTrue(links, r)
    && NodesFirst(links, root, r, cap) && FlagTrue(links, root, r, cap) && FlagFilled(Both(links), root, r, cap)
  }

  method Explore(links: Links, root: string, depth: nat, cap: nat) returns (r: Report)
    requires Mirrored(links) && root in links.outgoing && cap > 0
    ensures ReportTrue(links, root, r, depth, cap)
  {
    var w, popped := WalkGraph(links, root, depth, cap);
    r := Report(w.nodes, w.edges, w.queue != [], depth);
    WalkReports(links, root, w, r);
    NodesAreFirst(links, root, w, popped, r, cap);
    FlagMeans(links, root, w, popped, r, cap);
    FilledIsFlagged(links, root, r, cap);
  }

  method ProvenanceGraph(store: Store, unlocked: bool, root: string, maxDepth: int, maxNodes: int)
      returns (r: Result<Report>, ghost links: Links)
    ensures Readable(store.p, store.State()) && unlocked && Live(store.State(), root) ==> r.Ok?
    ensures !Live(store.State(), root) ==> r == Err
    ensures r.Ok? ==> ReportTrue(links, root, r.value, Between(0, 8, maxDepth), Between(1, 512, maxNodes))
    ensures r.Ok? ==> Declared(store.p, store.State(), links)
    ensures r.Ok? ==> Alphabetical(links)
  {
    var depth: nat, cap: nat := Between(0, 8, maxDepth), Between(1, 512, maxNodes);
    var linked := LinksOf(store, unlocked);
    if linked.Err? || root !in linked.value.outgoing {
      return Err, Links(map[], map[], map[], map[]);
    }
    links := linked.value;
    var report := Explore(linked.value, root, depth, cap);
    r := Ok(report);
  }

  /** Two records, the first citing the second. */
  function TwoLinks(a: string, b: string): Links {
    Links(map[a := {b}, b := {}], map[a := {}, b := {a}], map[a := [b], b := []], map[a := [], b := [a]])
  }

  lemma TwoLinked(a: string, b: string)
    requires a != b
    ensures Mirrored(TwoLinks(a, b)) && a in TwoLinks(a, b).outgoing
    ensures Next(Both(TwoLinks(a, b)), a) == {b} && Next(Both(TwoLinks(a, b)), b) == {a}
  {
  }

  lemma TwoWithin(g: Graph, a: string, b: string)
    requires a != b && Next(g, a) == {b} && Next(g, b) == {a}
    ensures Within(g, a, 1) == Within(g, a, 2) == {a, b}
  {
    assert Neighbors(g, {a}) == {b};
    assert Within(g, a, 0) == {a};
    assert Within(g, a, 1) == {a, b};
    assert Neighbors(g, {a, b}) == {a, b};
  }

  /** With a node cap of two both are reported, nothing is missing, and yet the report says it
      is truncated. */
  method TwoRecords(a: string, b: string) returns (r: Report)
    requires a != b
    ensures r.truncated && r.maxDepth == 2 && |r.nodes| == 2
    ensures !Misses(Both(TwoLinks(a, b)), a, r)
  {
    TwoLinked(a, b);
    TwoWithin(Both(TwoLinks(a, b)), a, b);
    r := Explore(TwoLinks(a, b), a, 2, 2);
  }

  /** Three records: the root cites the first, and the first and the second, listed as `both`,
      cite the root. */
  function Star(root: string, x: string, y: string, both: seq<string>): Links {
    Links(map[root := {x}, x := {root}, y := {root}], map[root := {x, y}, x := {root}, y := {}],
          map[root := [x], x := [root], y := [root]], map[root := both, x := [root], y := []])
  }

  lemma StarLinked(root: string, x: string, y: string, both: seq<string>)
    requires root != x && root != y && x != y && forall z :: z in both <==> z in {x, y}
    ensures Mirrored(Star(root, x, y, both))
  {
    var links := Star(root, x, y, both);
    assert links.outgoing.Keys == links.incoming.Keys == {root, x, y};
  }

  lemma AroundRoot(root: string, x: string, y: string, both: seq<string>)
    requires root != x && root != y && x != y
    ensures Next(Both(Star(root, x, y, both)), root) == {x, y}
    ensures Around(Star(root, x, y, both), root) == [x] + both
  {
  }

  lemma StarWithin(g: Graph, root: string, x: string, y: string)
    requires root != x && root != y && x != y && Next(g, root) == {x, y}
    ensures |Within(g, root, 1)| == 3
  {
    assert Neighbors(g, {root}) == {x, y};
    assert Within(g, root, 0) == {root};
    assert Within(g, root, 1) == {root, x, y};
  }

  lemma OneNamed(links: Links, id: string)
    ensures NamedBy(links, [id]) == Around(links, id)
  {
    assert [id][..0] == [];
    assert NamedBy(links, []) == [];
  }

  lemma RootNamings(links: Links, root: string)
    ensures Namings(links, root, 1) == [root] + Around(links, root)
  {
    UniqueFirst(root, []);
    assert [root] + [] == [root];
    assert Unique([root]) == [root];
    OneNamed(links, root);
  }

  lemma StarTold(root: string, x: string, y: string, both: seq<string>)
    requires root != x && root != y && x != y && forall z :: z in both <==> z in {x, y}
    ensures var links := Star(root, x, y, both);
      && Mirrored(links) && root in links.outgoing
      && |Within(Both(links), root, 1)| == 3 && Namings(links, root, 1) == [root, x] + both
  {
    var links := Star(root, x, y, both);
    StarLinked(root, x, y, both);
    AroundRoot(root, x, y, both);
    StarWithin(Both(links), root, x, y);
    RootNamings(links, root);
    assert [root] + Around(links, root) == [root, x] + both;
  }

  method ExploreStar(root: string, x: string, y: string, both: seq<string>) returns (r: Report)
    requires root != x && root != y && x != y && forall z :: z in both <==> z in {x, y}
    ensures r.maxDepth == 1 && !Misses(Both(Star(root, x, y, both)), root, r)
    ensures r.truncated <==> EndsInRepeat([root, x] + both)
  {
    StarTold(root, x, y, both);
    r := Explore(Star(root, x, y, both), root, 1, 3);
  }

  /** At the node cap names can decide: exchanging the names of two records turns the flag,
      though the graph keeps its shape and nothing is missing either way. */
  method NamesDecide(root: string, a: string, b: string) returns (plain: Report, renamed: Report)
    requires root != a && root != b && a != b && AtMost(a, b)
    ensures !plain.truncated && !Misses(Both(Star(root, a, b, Sorted({a, b}))), root, plain)
    ensures renamed.truncated && !Misses(Both(Star(root, b, a, Sorted({b, a}))), root, renamed)
    ensures plain.maxDepth == renamed.maxDepth == 1
  {
    SortedPair(a, b);
    assert {b, a} == {a, b};
    assert [root, a, a, b][..3] == [root, a, a] && [root, a] + [a, b] == [root, a, a, b];
    assert [root, b, a, b][..3] == [root, b, a] && [root, b] + [a, b] == [root, b, a, b];
    plain := ExploreStar(root, a, b, [a, b]);
    renamed := ExploreStar(root, b, a, [a, b]);
  }

  /** `_all_active_records`, keyed by identifier. */
  method LoadAll(store: Store, unlocked: bool) returns (r: Result<map<string, StoredRecord>>)
    ensures Readable(store.p, store.State()) && unlocked ==> r.Ok?
    ensures r.Ok? ==> r.value.Keys == LiveIds(store.State())
    ensures r.Ok? ==> forall id :: id in r.value ==> Decode(store.p, id, store.records[id]) == Ok(r.value[id])
  {
    var rest := LiveIds(store.State());
    var records: map<string, StoredRecord> := map[];
    while rest != {}
      invariant rest <= LiveIds(store.State())
      invariant records.Keys == LiveIds(store.State()) - rest
      invariant forall id :: id in records ==> Decode(store.p, id, store.records[id]) == Ok(records[id])
      decreases rest
    {
      var id :| id in rest;
      var found := store.Get(unlocked, id);
      if found.Err? {
        return Err;
      }
      records := records[id := found.value.value];
      rest := rest - {id};
    }
    r := Ok(records);
  }

  /** Compaction is provenance-preserving: the record it writes declares every source. */
  lemma CompactionDeclaresSources(r: StoredRecord, ids: seq<string>)
    requires Names(r.clear.metadata, ids)
    ensures forall id :: id in ids && id != "" ==> id in References(r.clear.metadata)
  {
    var metadata := r.clear.metadata;
    var list := Strings(ids);
    forall id | id in ids && id != ""
      ensures id in References(metadata)
    {
      var i :| 0 <= i < |ids| && ids[i] == id;
      assert list.items[i] == Str(id);
      assert id in Named(list);
      assert id in Walked(metadata["sourceRecordIds"], Some("sourceRecordIds"));
    }
  }
}
