/** When the draws of one iteration count towards different findings: the condition of
    `Tally.HitsBounded`, read off the scenario. */
module TallyKeys {
  import opened Prelude
  import AttackSurface
  import opened Tally

  type Asset = AttackSurface.Asset
  type Edge = AttackSurface.Edge

  lemma DistinctConcat<T(!new)>(a: seq<T>, b: seq<T>)
    ensures Distinct(a + b) <==> Distinct(a) && Distinct(b) && forall x :: x in a ==> x !in b
  {
    var s := a + b;
    if Distinct(s) {
      forall i, j | 0 <= i < |a| && 0 <= j < |b|
        ensures a[i] != b[j]
      {
        assert s[i] != s[|a| + j];
      }
      forall i, j | 0 <= i < j < |a|
        ensures a[i] != a[j]
      {
        assert s[i] != s[j];
      }
      forall i, j | 0 <= i < j < |b|
        ensures b[i] != b[j]
      {
        assert s[|a| + i] != s[|a| + j];
      }
    } else {
      var i, j :| 0 <= i < j < |s| && s[i] == s[j];
      if i >= |a| {
        assert b[i - |a|] == b[j - |a|];
      } else if j < |a| {
        assert a[i] == a[j];
      } else {
        assert a[i] in a && b[j - |a|] in b && a[i] == b[j - |a|];
      }
    }
  }

  lemma KeysOfSlots(a: seq<Slot>, b: seq<Slot>)
    ensures SlotKeys(a + b) == SlotKeys(a) + SlotKeys(b)
  {
  }

  function AssetIds(assets: seq<Asset>): seq<string> { seq(|assets|, i requires 0 <= i < |assets| => assets[i].id) }

  function HumanIds(humans: seq<Human>): seq<string> { seq(|humans|, i requires 0 <= i < |humans| => humans[i].id) }

  /** Both ends are assets, so the edge is drawn. */
  predicate Linked(assets: seq<Asset>, e: Edge) {
    AttackSurface.Latest(assets, e.fromId).Some? && AttackSurface.Latest(assets, e.toId).Some?
  }

  ghost predicate LinksDistinct(assets: seq<Asset>, edges: seq<Edge>) {
    forall i, j :: 0 <= i < j < |edges| && Linked(assets, edges[i]) && Linked(assets, edges[j]) ==> edges[i] != edges[j]
  }

  /** No link from an asset with an empty id, which reads as "no pathway", counts towards a
      finding its target has on its own. */
  ghost predicate NoNameless(assets: seq<Asset>, edges: seq<Edge>) {
    forall e :: e in edges && Linked(assets, e) && e.fromId == "" ==>
      e.vector !in VectorsFor(AttackSurface.Latest(assets, e.toId).value)
  }

  ghost predicate NoHumanNames(assets: seq<Asset>, humans: seq<Human>) {
    forall a, h :: a in assets && h in humans ==> a.id != HumanSubject(h)
  }

  /** What a scenario's author can check. */
  ghost predicate Separate(s: Scenario) {
    && Distinct(AssetIds(s.assets)) && Distinct(HumanIds(s.humans)) && NoHumanNames(s.assets, s.humans)
    && LinksDistinct(s.assets, s.edges) && NoNameless(s.assets, s.edges)
  }

  lemma SubjectKeys(subject: string, location: string, vectors: seq<Vector>)
    requires Distinct(vectors)
    ensures Distinct(SlotKeys(SubjectSlots(subject, location, vectors)))
    ensures forall k :: k in SlotKeys(SubjectSlots(subject, location, vectors)) <==>
                        k.subject == subject && k.pathway == "" && k.vector in vectors
  {
    var keys := SlotKeys(SubjectSlots(subject, location, vectors));
    assert forall i :: 0 <= i < |vectors| ==> keys[i] == FindingKey(subject, vectors[i], "");
  }

  ghost predicate AssetKey(assets: seq<Asset>, k: FindingKey) {
    k.pathway == "" && exists a :: a in assets && a.id == k.subject && k.vector in VectorsFor(a)
  }

  lemma VectorsDistinct(asset: Asset)
    ensures Distinct(VectorsFor(asset)) && AttackSurface.CredentialExposure in VectorsFor(asset)
  {
    assert VectorsFor(asset)[0] == AttackSurface.CredentialExposure;
  }

  lemma {:induction false} AssetKeys(assets: seq<Asset>)
    ensures forall k :: k in SlotKeys(AssetSlots(assets)) <==> AssetKey(assets, k)
    ensures Distinct(SlotKeys(AssetSlots(assets))) <==> Distinct(AssetIds(assets))
  {
    if assets != [] {
      var front, last := assets[..|assets| - 1], assets[|assets| - 1];
      var own := SubjectSlots(last.id, last.location, VectorsFor(last));
      AssetKeys(front);
      VectorsDistinct(last);
      SubjectKeys(last.id, last.location, VectorsFor(last));
      KeysOfSlots(AssetSlots(front), own);
      assert assets == front + [last];
      assert AssetIds(assets) == AssetIds(front) + [last.id];
      DistinctConcat(SlotKeys(AssetSlots(front)), SlotKeys(own));
      DistinctConcat(AssetIds(front), [last.id]);
      SharedId(front, last, SlotKeys(own));
    }
  }

  /** Two assets share a finding exactly when they share an id. */
  lemma SharedId(front: seq<Asset>, last: Asset, own: seq<FindingKey>)
    requires forall k :: k in own <==> k.subject == last.id && k.pathway == "" && k.vector in VectorsFor(last)
    ensures (forall k :: AssetKey(front, k) ==> k !in own) <==>
        (forall id :: id in AssetIds(front) ==> id !in [last.id])
  {
    if i: nat :| i < |front| && front[i].id == last.id {
      VectorsDistinct(front[i]);
      VectorsDistinct(last);
      var k := FindingKey(last.id, AttackSurface.CredentialExposure, "");
      assert front[i] in front && AssetKey(front, k) && k in own;
      assert AssetIds(front)[i] == last.id && last.id in AssetIds(front) && last.id in [last.id];
    } else {
      assert forall a :: a in front ==> a.id != last.id;
      assert forall i :: 0 <= i < |front| ==> AssetIds(front)[i] != last.id;
    }
  }

  lemma SubjectsDiffer(a: Human, b: Human)
    requires HumanSubject(a) == HumanSubject(b)
    ensures a.id == b.id
  {
    assert a.id == HumanSubject(a)[6..];
    assert b.id == HumanSubject(b)[6..];
  }

  ghost predicate HumanKey(humans: seq<Human>, k: FindingKey) {
    k.pathway == "" && k.vector in HUMAN_VECTORS && exists h :: h in humans && HumanSubject(h) == k.subject
  }

  lemma {:induction false} HumanKeys(humans: seq<Human>)
    ensures forall k :: k in SlotKeys(HumanSlots(humans)) <==> HumanKey(humans, k)
    ensures Distinct(SlotKeys(HumanSlots(humans))) <==> Distinct(HumanIds(humans))
  {
    if humans != [] {
      var front, last := humans[..|humans| - 1], humans[|humans| - 1];
      var own := SubjectSlots(HumanSubject(last), last.location, HUMAN_VECTORS);
      HumanKeys(front);
      SubjectKeys(HumanSubject(last), last.location, HUMAN_VECTORS);
      KeysOfSlots(HumanSlots(front), own);
      assert humans == front + [last];
      assert HumanIds(humans) == HumanIds(front) + [last.id];
      DistinctConcat(SlotKeys(HumanSlots(front)), SlotKeys(own));
      DistinctConcat(HumanIds(front), [last.id]);
      SharedHuman(front, last, SlotKeys(own));
    }
  }

  lemma SharedHuman(front: seq<Human>, last: Human, own: seq<FindingKey>)
    requires forall k :: k in own <==> k.subject == HumanSubject(last) && k.pathway == "" && k.vector in HUMAN_VECTORS
    ensures (forall k :: HumanKey(front, k) ==> k !in own) <==>
        (forall id :: id in HumanIds(front) ==> id !in [last.id])
  {
    if i: nat :| i < |front| && front[i].id == last.id {
      var k := FindingKey(HumanSubject(last), HUMAN_VECTORS[0], "");
      assert front[i] in front && HumanKey(front, k) && k in own;
      assert HumanIds(front)[i] == last.id && last.id in HumanIds(front) && last.id in [last.id];
    } else {
      assert forall i :: 0 <= i < |front| ==> HumanIds(front)[i] != last.id;
      forall k | HumanKey(front, k)
        ensures k !in own
      {
        var h :| h in front && HumanSubject(h) == k.subject;
        if HumanSubject(h) == HumanSubject(last) {
          SubjectsDiffer(h, last);
        }
      }
    }
  }

  function KeyOf(e: Edge): FindingKey { FindingKey(e.toId, e.vector, e.fromId) }

  lemma {:induction false} LatestFound(assets: seq<Asset>, id: string)
    ensures match AttackSurface.Latest(assets, id)
            case Some(a) => a.id == id && a in assets
            case None => forall a :: a in assets ==> a.id != id
  {
    if assets != [] {
      LatestFound(assets[..|assets| - 1], id);
      assert assets == assets[..|assets| - 1] + [assets[|assets| - 1]];
    }
  }

  lemma EdgeKey(assets: seq<Asset>, e: Edge)
    ensures SlotKeys(EdgeSlot(assets, e)) == if Linked(assets, e) then [KeyOf(e)] else []
  {
    LatestFound(assets, e.fromId);
    LatestFound(assets, e.toId);
  }

  ghost predicate LinkKey(assets: seq<Asset>, edges: seq<Edge>, k: FindingKey) {
    exists e :: e in edges && Linked(assets, e) && KeyOf(e) == k
  }

  lemma {:induction false} EdgeKeys(assets: seq<Asset>, edges: seq<Edge>)
    ensures forall k :: k in SlotKeys(EdgeSlots(assets, edges)) <==> LinkKey(assets, edges, k)
    ensures Distinct(SlotKeys(EdgeSlots(assets, edges))) <==> LinksDistinct(assets, edges)
  {
    if edges != [] {
      var front, last := edges[..|edges| - 1], edges[|edges| - 1];
      EdgeKeys(assets, front);
      EdgeKey(assets, last);
      KeysOfSlots(EdgeSlots(assets, front), EdgeSlot(assets, last));
      assert edges == front + [last];
      DistinctConcat(SlotKeys(EdgeSlots(assets, front)), SlotKeys(EdgeSlot(assets, last)));
      LastLink(assets, edges);
    }
  }

  lemma LastLink(assets: seq<Asset>, edges: seq<Edge>)
    requires edges != []
    ensures var front, last := edges[..|edges| - 1], edges[|edges| - 1];
            LinksDistinct(assets, edges) <==>
            LinksDistinct(assets, front) && (Linked(assets, last) ==> !LinkKey(assets, front, KeyOf(last)))
  {
    var n := |edges| - 1;
    if Linked(assets, edges[n]) {
      if i: nat :| i < n && Linked(assets, edges[i]) && edges[i] == edges[n] {
        assert edges[i] in edges[..n];
      }
      if LinkKey(assets, edges[..n], KeyOf(edges[n])) {
        var e :| e in edges[..n] && Linked(assets, e) && KeyOf(e) == KeyOf(edges[n]);
        var i :| 0 <= i < n && edges[i] == e;
      }
    }
  }

  lemma UniqueLatest(assets: seq<Asset>, a: Asset)
    requires Distinct(AssetIds(assets)) && a in assets
    ensures AttackSurface.Latest(assets, a.id) == Some(a)
  {
    LatestFound(assets, a.id);
    var b := AttackSurface.Latest(assets, a.id).value;
    var i :| 0 <= i < |assets| && assets[i] == a;
    var j :| 0 <= j < |assets| && assets[j] == b;
    assert AssetIds(assets)[i] == AssetIds(assets)[j];
  }

  lemma AssetsApartFromLinks(assets: seq<Asset>, edges: seq<Edge>)
    requires Distinct(AssetIds(assets))
    ensures (forall k :: AssetKey(assets, k) ==> !LinkKey(assets, edges, k)) <==> NoNameless(assets, edges)
  {
    forall e | e in edges && Linked(assets, e) && e.fromId == ""
      ensures AssetKey(assets, KeyOf(e)) <==> e.vector in VectorsFor(AttackSurface.Latest(assets, e.toId).value)
      ensures LinkKey(assets, edges, KeyOf(e))
    {
      LatestFound(assets, e.toId);
      forall a | a in assets && a.id == e.toId
        ensures AttackSurface.Latest(assets, e.toId) == Some(a)
      {
        UniqueLatest(assets, a);
      }
    }
  }

  lemma HumansApart(assets: seq<Asset>, edges: seq<Edge>, humans: seq<Human>)
    ensures (forall k :: AssetKey(assets, k) || LinkKey(assets, edges, k) ==> !HumanKey(humans, k))
            <==> NoHumanNames(assets, humans)
  {
    forall a, h | a in assets && h in humans && a.id == HumanSubject(h)
      ensures exists k :: AssetKey(assets, k) && HumanKey(humans, k)
    {
      VectorsDistinct(a);
      var k := FindingKey(a.id, AttackSurface.CredentialExposure, "");
      assert HUMAN_VECTORS[1] == k.vector;
      assert AssetKey(assets, k) && HumanKey(humans, k);
    }
    forall e | e in edges && Linked(assets, e)
      ensures exists a :: a in assets && a.id == e.toId
    {
      LatestFound(assets, e.toId);
    }
  }

  /** No two draws of an iteration count towards the same finding exactly when the scenario
      keeps its ids, its links and its names apart. */
  lemma KeysDistinctExactly(s: Scenario)
    ensures Distinct(SlotKeys(Slots(s))) <==> Separate(s)
  {
    var a, e, h := AssetSlots(s.assets), EdgeSlots(s.assets, s.edges), HumanSlots(s.humans);
    AssetKeys(s.assets);
    EdgeKeys(s.assets, s.edges);
    HumanKeys(s.humans);
    KeysOfSlots(a, e);
    KeysOfSlots(a + e, h);
    DistinctConcat(SlotKeys(a), SlotKeys(e));
    DistinctConcat(SlotKeys(a + e), SlotKeys(h));
    if Distinct(AssetIds(s.assets)) {
      AssetsApartFromLinks(s.assets, s.edges);
    }
    HumansApart(s.assets, s.edges, s.humans);
  }

  /** For every draw the hits of every finding stay within the iterations exactly then, and
      then the reported probability needs no clamp. */
  lemma HitsBoundedExactly(s: Scenario, n: nat)
    requires n > 0
    ensures (forall fires: set<(nat, nat)>, key :: HitsOf(Slots(s), fires, n, key) <= n) <==> Separate(s)
  {
    KeysDistinctExactly(s);
    HitsBounded(Slots(s), n);
  }

  lemma ProbabilityNeedsNoClamp(s: Scenario, fires: set<(nat, nat)>, n: nat, key: FindingKey)
    requires Separate(s) && n > 0
    ensures 0.0 <= HitsOf(Slots(s), fires, n, key) as real / n as real <= 1.0
  {
    KeysDistinctExactly(s);
    DistinctBounds(Slots(s), fires, n, key);
    AttackSurface.Share(HitsOf(Slots(s), fires, n, key) as real, n as real);
  }

  /** One asset with an empty id and a link to itself. */
  const NAMELESS := Scenario(
    [AttackSurface.Asset("", AttackSurface.Other, "lab", 0.5)],
    [AttackSurface.Edge("", "", AttackSurface.Availability)], [])

  /** Two assets and the same link twice. */
  const TWICE := Scenario(
    [AttackSurface.Asset("a", AttackSurface.Other, "lab", 0.5),
     AttackSurface.Asset("b", AttackSurface.Other, "lab", 0.5)],
    [AttackSurface.Edge("a", "b", AttackSurface.Malware), AttackSurface.Edge("a", "b", AttackSurface.Malware)], [])

  /** Two scenarios in which a finding is hit more often than there are iterations. */
  lemma HitsExceed(n: nat)
    requires n > 0
    ensures exists fires: set<(nat, nat)>, key :: HitsOf(Slots(NAMELESS), fires, n, key) > n
    ensures exists fires: set<(nat, nat)>, key :: HitsOf(Slots(TWICE), fires, n, key) > n
  {
    var e := NAMELESS.edges[0];
    LatestFound(NAMELESS.assets, "");
    assert NAMELESS.assets[0] in NAMELESS.assets && e in NAMELESS.edges;
    assert Linked(NAMELESS.assets, e);
    assert VectorsFor(AttackSurface.Latest(NAMELESS.assets, e.toId).value)[2] == AttackSurface.Availability;
    assert !Separate(NAMELESS);
    HitsBoundedExactly(NAMELESS, n);
    LatestFound(TWICE.assets, "a");
    LatestFound(TWICE.assets, "b");
    assert TWICE.assets[0] in TWICE.assets && TWICE.assets[1] in TWICE.assets;
    assert Linked(TWICE.assets, TWICE.edges[0]) && Linked(TWICE.assets, TWICE.edges[1]);
    assert !Separate(TWICE);
    HitsBoundedExactly(TWICE, n);
  }

  /** Assets with different ids all have their priors, so the run does not throw. */
  lemma SeparateIsPriced(s: Scenario)
    requires Distinct(AssetIds(s.assets))
    ensures forall a :: a in s.assets ==> Priced(s.assets, a)
  {
    forall a | a in s.assets
      ensures Priced(s.assets, a)
    {
      UniqueLatest(s.assets, a);
    }
  }
}
