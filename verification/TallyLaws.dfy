/** The Monte Carlo tallies told draw by draw: what is drawn for a scenario, and how often each
    table counts what fired. */
module TallyLaws {
  import opened Prelude
  import opened AttackSurface
  import opened Tally

  // ---- the draws of an iteration ----

  /** The threats drawn for an asset of each kind. */
  predicate Threatens(kind: Kind, v: Vector) {
    || v == CredentialExposure || v == Misconfiguration || v == Availability
    || (v == Malware && (kind == Endpoint || kind == Server))
    || (v == DataExfiltration && (kind == Endpoint || kind == Server))
    || (v == PhysicalIntrusion && kind == Facility)
    || (v == SupplyChain && kind == Supplier)
  }

  predicate ThreatensPeople(v: Vector) {
    v == Phishing || v == CredentialExposure || v == SocialEngineering || v == InsiderRisk
  }

  predicate AssetDraw(asset: Asset, slot: Slot) {
    && slot.key.subject == asset.id && slot.key.pathway == "" && slot.location == asset.location
    && Threatens(asset.kind, slot.key.vector)
  }

  predicate PersonDraw(human: Human, slot: Slot) {
    && slot.key.subject == "human:" + human.id && slot.key.pathway == "" && slot.location == human.location
    && ThreatensPeople(slot.key.vector)
  }

  /** `k` is the last asset with the identifier. */
  predicate LastAsset(assets: seq<Asset>, id: string, k: nat) {
    k < |assets| && assets[k].id == id && forall j :: k < j < |assets| ==> assets[j].id != id
  }

  /** A link between two known assets hits the last asset with the target's identifier, by way of the source. */
  ghost predicate LinkDraw(assets: seq<Asset>, edge: Edge, slot: Slot) {
    && slot.key == FindingKey(edge.toId, edge.vector, edge.fromId)
    && (exists k: nat :: LastAsset(assets, edge.fromId, k))
    && exists k: nat :: LastAsset(assets, edge.toId, k) && slot.location == assets[k].location
  }

  lemma {:induction false} LatestIsLast(assets: seq<Asset>, id: string)
    ensures match Latest(assets, id)
      case Some(asset) => exists k: nat :: LastAsset(assets, id, k) && assets[k] == asset
      case None => forall k: nat :: !LastAsset(assets, id, k)
  {
    if assets != [] {
      var n := |assets| - 1;
      LatestIsLast(assets[..n], id);
      if assets[n].id == id {
        assert LastAsset(assets, id, n);
      } else {
        forall k: nat
          ensures LastAsset(assets, id, k) <==> LastAsset(assets[..n], id, k)
        {
          assert k < n ==> assets[..n][k] == assets[k];
        }
      }
    }
  }

  lemma OneLast(assets: seq<Asset>, id: string, a: nat, b: nat)
    requires LastAsset(assets, id, a) && LastAsset(assets, id, b)
    ensures a == b
  {
  }

  lemma EdgeDraws(assets: seq<Asset>, edge: Edge, slot: Slot)
    ensures slot in EdgeSlot(assets, edge) <==> LinkDraw(assets, edge, slot)
  {
    LatestIsLast(assets, edge.fromId);
    LatestIsLast(assets, edge.toId);
    forall a: nat, b: nat | LastAsset(assets, edge.toId, a) && LastAsset(assets, edge.toId, b)
      ensures a == b
    {
      OneLast(assets, edge.toId, a, b);
    }
  }

  lemma SubjectDraws(subject: string, location: string, vectors: seq<Vector>, slot: Slot)
    ensures slot in SubjectSlots(subject, location, vectors)
       <==> slot.key == FindingKey(subject, slot.key.vector, "") && slot.key.vector in vectors
            && slot.location == location
  {
    var slots := SubjectSlots(subject, location, vectors);
    if slot.key.vector in vectors && slot.key == FindingKey(subject, slot.key.vector, "") && slot.location == location {
      var i :| 0 <= i < |vectors| && vectors[i] == slot.key.vector;
      assert slots[i] == slot;
    }
  }

  lemma {:induction false} AssetDraws(assets: seq<Asset>, slot: Slot)
    ensures slot in AssetSlots(assets) <==> exists asset :: asset in assets && AssetDraw(asset, slot)
  {
    if assets != [] {
      var n := |assets| - 1;
      assert assets == assets[..n] + [assets[n]];
      AssetDraws(assets[..n], slot);
      SubjectDraws(assets[n].id, assets[n].location, VectorsFor(assets[n]), slot);
      assert slot.key.vector in VectorsFor(assets[n]) <==> Threatens(assets[n].kind, slot.key.vector);
      assert slot in AssetSlots(assets) <==> slot in AssetSlots(assets[..n]) || AssetDraw(assets[n], slot);
    }
  }

  lemma {:induction false} LinkDraws(assets: seq<Asset>, edges: seq<Edge>, slot: Slot)
    ensures slot in EdgeSlots(assets, edges) <==> exists edge :: edge in edges && LinkDraw(assets, edge, slot)
  {
    if edges != [] {
      var n := |edges| - 1;
      assert edges == edges[..n] + [edges[n]];
      LinkDraws(assets, edges[..n], slot);
      EdgeDraws(assets, edges[n], slot);
    }
  }

  lemma {:induction false} PersonDraws(humans: seq<Human>, slot: Slot)
    ensures slot in HumanSlots(humans) <==> exists human :: human in humans && PersonDraw(human, slot)
  {
    if humans != [] {
      var n := |humans| - 1;
      assert humans == humans[..n] + [humans[n]];
      PersonDraws(humans[..n], slot);
      SubjectDraws(HumanSubject(humans[n]), humans[n].location, HUMAN_VECTORS, slot);
      assert slot.key.vector in HUMAN_VECTORS <==> ThreatensPeople(slot.key.vector);
      assert slot in HumanSlots(humans) <==> slot in HumanSlots(humans[..n]) || PersonDraw(humans[n], slot);
    }
  }

  /** An iteration draws for every asset the threats of its kind, for every link between known
      assets its own, and for every human the four human ones, each counted where its subject is. */
  lemma DrawsOfScenario(s: Scenario, slot: Slot)
    ensures slot in Slots(s) <==>
      || (exists asset :: asset in s.assets && AssetDraw(asset, slot))
      || (exists edge :: edge in s.edges && LinkDraw(s.assets, edge, slot))
      || (exists human :: human in s.humans && PersonDraw(human, slot))
  {
    AssetDraws(s.assets, slot);
    LinkDraws(s.assets, s.edges, slot);
    PersonDraws(s.humans, slot);
  }

  // ---- how often each table counts ----

  /** The draws of iteration `i` that fired and whose hit is wanted. */
  ghost function FiredIn(slots: seq<Slot>, fires: set<(nat, nat)>, i: nat, wanted: Hit -> bool): set<nat> {
    set j: nat | j < |slots| && (i, j) in fires && wanted(Hit(slots[j], i % 24))
  }

  /** The same over the first `n` iterations. */
  ghost function FiredBy(slots: seq<Slot>, fires: set<(nat, nat)>, n: nat, wanted: Hit -> bool): set<(nat, nat)> {
    set i: nat, j: nat | i < n && j < |slots| && (i, j) in fires && wanted(Hit(slots[j], i % 24)) :: (i, j)
  }

  lemma {:induction false} IterationCounts(slots: seq<Slot>, fires: set<(nat, nat)>, i: nat, count: seq<Hit> -> nat,
      wanted: Hit -> bool)
    requires Adds(count, wanted)
    ensures count(Fired(slots, fires, i)) == |FiredIn(slots, fires, i, wanted)|
  {
    if slots != [] {
      var n := |slots| - 1;
      IterationCounts(slots[..n], fires, i, count, wanted);
      var now := if (i, n) in fires && wanted(Hit(slots[n], i % 24)) then {n} else {};
      assert FiredIn(slots, fires, i, wanted) == FiredIn(slots[..n], fires, i, wanted) + now;
      assert |now| == count(if (i, n) in fires then [Hit(slots[n], i % 24)] else []);
    }
  }

  ghost function Row(i: nat, columns: set<nat>): set<(nat, nat)> { set j | j in columns :: (i, j) }

  lemma {:induction false} RowSize(i: nat, columns: set<nat>)
    ensures |Row(i, columns)| == |columns|
  {
    if columns == {} {
      assert Row(i, columns) == {};
    } else {
      var c :| c in columns;
      RowSize(i, columns - {c});
      assert Row(i, columns) == Row(i, columns - {c}) + {(i, c)};
    }
  }

  lemma NextRow(slots: seq<Slot>, fires: set<(nat, nat)>, n: nat, wanted: Hit -> bool)
    requires n > 0
    ensures |FiredBy(slots, fires, n, wanted)|
         == |FiredBy(slots, fires, n - 1, wanted)| + |FiredIn(slots, fires, n - 1, wanted)|
  {
    var before, row := FiredBy(slots, fires, n - 1, wanted), Row(n - 1, FiredIn(slots, fires, n - 1, wanted));
    RowSize(n - 1, FiredIn(slots, fires, n - 1, wanted));
    assert FiredBy(slots, fires, n, wanted) == before + row;
    assert before !! row;
  }

  lemma NoRows(slots: seq<Slot>, fires: set<(nat, nat)>, wanted: Hit -> bool)
    ensures |FiredBy(slots, fires, 0, wanted)| == 0
  {
    assert FiredBy(slots, fires, 0, wanted) == {};
  }

  /** A run's hits of any description are the draws of that description that fired. */
  lemma {:induction false} RunCounts(slots: seq<Slot>, fires: set<(nat, nat)>, n: nat, count: seq<Hit> -> nat,
      wanted: Hit -> bool)
    requires Adds(count, wanted)
    ensures count(Trace(slots, fires, n)) == |FiredBy(slots, fires, n, wanted)|
  {
    if n == 0 {
      NoRows(slots, fires, wanted);
    } else {
      RunCounts(slots, fires, n - 1, count, wanted);
      IterationCounts(slots, fires, n - 1, count, wanted);
      NextRow(slots, fires, n, wanted);
    }
  }

  ghost function DrawsFor(slots: seq<Slot>, fires: set<(nat, nat)>, n: nat, key: FindingKey): set<(nat, nat)> {
    set i: nat, j: nat | i < n && j < |slots| && (i, j) in fires && slots[j].key == key :: (i, j)
  }

  ghost function DrawsAt(slots: seq<Slot>, fires: set<(nat, nat)>, n: nat, hour: nat): set<(nat, nat)> {
    set i: nat, j: nat | i < n && j < |slots| && (i, j) in fires && i % 24 == hour :: (i, j)
  }

  ghost function DrawsIn(slots: seq<Slot>, fires: set<(nat, nat)>, n: nat, place: string): set<(nat, nat)> {
    set i: nat, j: nat | i < n && j < |slots| && (i, j) in fires && slots[j].location == place :: (i, j)
  }

  lemma KeyDraws(slots: seq<Slot>, fires: set<(nat, nat)>, n: nat, key: FindingKey)
    ensures multiset(Keys(Trace(slots, fires, n)))[key] == |DrawsFor(slots, fires, n, key)|
  {
    var wanted := (hit: Hit) => hit.slot.key == key;
    var count := (trace: seq<Hit>) => multiset(Keys(trace))[key];
    assert forall a, b :: Keys(a + b) == Keys(a) + Keys(b);
    RunCounts(slots, fires, n, count, wanted);
    assert DrawsFor(slots, fires, n, key) == FiredBy(slots, fires, n, wanted);
  }

  lemma HourDraws(slots: seq<Slot>, fires: set<(nat, nat)>, n: nat, hour: nat)
    ensures multiset(Hours(Trace(slots, fires, n)))[hour] == |DrawsAt(slots, fires, n, hour)|
  {
    var wanted := (hit: Hit) => hit.hour == hour;
    var count := (trace: seq<Hit>) => multiset(Hours(trace))[hour];
    assert forall a, b :: Hours(a + b) == Hours(a) + Hours(b);
    RunCounts(slots, fires, n, count, wanted);
    assert DrawsAt(slots, fires, n, hour) == FiredBy(slots, fires, n, wanted);
  }

  lemma PlaceDraws(slots: seq<Slot>, fires: set<(nat, nat)>, n: nat, place: string)
    ensures multiset(Places(Trace(slots, fires, n)))[place] == |DrawsIn(slots, fires, n, place)|
  {
    var wanted := (hit: Hit) => hit.slot.location == place;
    var count := (trace: seq<Hit>) => multiset(Places(trace))[place];
    assert forall a, b :: Places(a + b) == Places(a) + Places(b);
    RunCounts(slots, fires, n, count, wanted);
    assert DrawsIn(slots, fires, n, place) == FiredBy(slots, fires, n, wanted);
  }

  /** After a run a finding counts the draws for it that fired, an hour those of the iterations
      that are this hour of some day, and a location those of subjects there. */
  lemma TablesCount(slots: seq<Slot>, fires: set<(nat, nat)>, n: nat, hits: map<FindingKey, nat>,
      hourly: map<nat, nat>, locations: map<string, nat>)
    requires Tallied(hits, hourly, locations, Trace(slots, fires, n))
    ensures forall key :: key in hits ==> hits[key] == |DrawsFor(slots, fires, n, key)|
    ensures forall hour :: hour in hourly ==> hourly[hour] == |DrawsAt(slots, fires, n, hour)|
    ensures forall place :: place in locations ==> locations[place] == |DrawsIn(slots, fires, n, place)|
  {
    forall key | key in hits
      ensures hits[key] == |DrawsFor(slots, fires, n, key)|
    {
      KeyDraws(slots, fires, n, key);
    }
    forall hour | hour in hourly
      ensures hourly[hour] == |DrawsAt(slots, fires, n, hour)|
    {
      HourDraws(slots, fires, n, hour);
    }
    forall place | place in locations
      ensures locations[place] == |DrawsIn(slots, fires, n, place)|
    {
      PlaceDraws(slots, fires, n, place);
    }
  }
}
