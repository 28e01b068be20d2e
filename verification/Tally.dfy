/** The sampling loops of the Monte Carlo engine (simulation_engine.dart). Which draws fire is
    left open: the results hold for every set of (iteration, draw) pairs. */
module Tally {
  import opened Prelude
  import opened Sorting
  import AttackSurface

  type Vector = AttackSurface.Vector

  datatype Human = Human(id: string, location: string)

  datatype Scenario = Scenario(assets: seq<AttackSurface.Asset>, edges: seq<AttackSurface.Edge>, humans: seq<Human>)

  datatype FindingKey = FindingKey(subject: string, vector: Vector, pathway: string)

  /** One draw of an iteration: the finding it counts towards, and where. */
  datatype Slot = Slot(key: FindingKey, location: string)

  const HUMAN_VECTORS: seq<Vector> :=
      [AttackSurface.Phishing, AttackSurface.CredentialExposure, AttackSurface.SocialEngineering,
          AttackSurface.InsiderRisk]

  function VectorsFor(asset: AttackSurface.Asset): seq<Vector> {
    [AttackSurface.CredentialExposure, AttackSurface.Misconfiguration, AttackSurface.Availability]
    + match asset.kind
      case Endpoint => [AttackSurface.Malware, AttackSurface.DataExfiltration]
      case Server => [AttackSurface.Malware, AttackSurface.DataExfiltration]
      case Facility => [AttackSurface.PhysicalIntrusion]
      case Supplier => [AttackSurface.SupplyChain]
      case Other => []
  }

  function SubjectSlots(subject: string, location: string, vectors: seq<Vector>): seq<Slot> {
    seq(|vectors|, i requires 0 <= i < |vectors| => Slot(FindingKey(subject, vectors[i], ""), location))
  }

  function AssetSlots(assets: seq<AttackSurface.Asset>): seq<Slot> {
    if assets == [] then []
    else
      var last := assets[|assets| - 1];
      AssetSlots(assets[..|assets| - 1]) + SubjectSlots(last.id, last.location, VectorsFor(last))
  }

  /** An edge counts only when both of its ends are assets. */
  function EdgeSlot(assets: seq<AttackSurface.Asset>, edge: AttackSurface.Edge): seq<Slot> {
    match (AttackSurface.Latest(assets, edge.fromId), AttackSurface.Latest(assets, edge.toId))
    case (Some(source), Some(target)) => [Slot(FindingKey(target.id, edge.vector, source.id), target.location)]
    case _ => []
  }

  function EdgeSlots(assets: seq<AttackSurface.Asset>, edges: seq<AttackSurface.Edge>): seq<Slot> {
    if edges == [] then [] else EdgeSlots(assets, edges[..|edges| - 1]) + EdgeSlot(assets, edges[|edges| - 1])
  }

  function HumanSubject(human: Human): string { "human:" + human.id }

  function HumanSlots(humans: seq<Human>): seq<Slot> {
    if humans == [] then []
    else
      var last := humans[|humans| - 1];
      HumanSlots(humans[..|humans| - 1]) + SubjectSlots(HumanSubject(last), last.location, HUMAN_VECTORS)
  }

  /** Every draw of one iteration, in order. */
  function Slots(s: Scenario): seq<Slot> {
    AssetSlots(s.assets) + EdgeSlots(s.assets, s.edges) + HumanSlots(s.humans)
  }

  /** Priors are kept by id, from the last asset with it, and a draw for a vector without one
      throws. */
  predicate Priced(assets: seq<AttackSurface.Asset>, asset: AttackSurface.Asset) {
    match AttackSurface.Latest(assets, asset.id)
    case Some(last) => forall v :: v in VectorsFor(asset) ==> v in VectorsFor(last)
    case None => false
  }

  /** A draw that fired. */
  datatype Hit = Hit(slot: Slot, hour: nat)

  /** The hits of one iteration. */
  ghost function Fired(slots: seq<Slot>, fires: set<(nat, nat)>, i: nat): seq<Hit> {
    if slots == [] then []
    else
      var n := |slots| - 1;
      Fired(slots[..n], fires, i) + (if (i, n) in fires then [Hit(slots[n], i % 24)] else [])
  }

  /** The hits of the first n iterations. */
  ghost function Trace(slots: seq<Slot>, fires: set<(nat, nat)>, n: nat): seq<Hit> {
    if n == 0 then [] else Trace(slots, fires, n - 1) + Fired(slots, fires, n - 1)
  }

  function Keys(trace: seq<Hit>): seq<FindingKey> { seq(|trace|, i requires 0 <= i < |trace| => trace[i].slot.key) }

  function Hours(trace: seq<Hit>): seq<nat> { seq(|trace|, i requires 0 <= i < |trace| => trace[i].hour) }

  function Places(trace: seq<Hit>): seq<string> { seq(|trace|, i requires 0 <= i < |trace| => trace[i].slot.location) }

  lemma LongerTrace(trace: seq<Hit>, hit: Hit)
    ensures Keys(trace + [hit]) == Keys(trace) + [hit.slot.key]
    ensures Hours(trace + [hit]) == Hours(trace) + [hit.hour]
    ensures Places(trace + [hit]) == Places(trace) + [hit.slot.location]
  {
  }

  /** `m` counts how often each value occurs in `s`. */
  ghost predicate Counts<K(!new)>(m: map<K, nat>, s: seq<K>) {
    && (forall k :: k in m ==> m[k] == multiset(s)[k])
    && forall k :: k in s ==> k in m
  }

  function Bumped<K(==)>(m: map<K, nat>, k: K): map<K, nat> { m[k := (if k in m then m[k] else 0) + 1] }

  lemma CountOne<K(!new)>(m: map<K, nat>, s: seq<K>, k: K)
    requires Counts(m, s)
    ensures Counts(Bumped(m, k), s + [k])
  {
    assert k !in m ==> multiset(s)[k] == 0;
  }

  /** The three tables count the hits of a trace. */
  ghost predicate Tallied(hits: map<FindingKey, nat>, hourly: map<nat, nat>, locations: map<string, nat>,
      trace: seq<Hit>) {
    Counts(hits, Keys(trace)) && Counts(hourly, Hours(trace)) && Counts(locations, Places(trace))
  }

  lemma KeyCounted(hits: map<FindingKey, nat>, trace: seq<Hit>, hit: Hit)
    requires Counts(hits, Keys(trace))
    ensures Counts(Bumped(hits, hit.slot.key), Keys(trace + [hit]))
  {
    LongerTrace(trace, hit);
    CountOne(hits, Keys(trace), hit.slot.key);
  }

  lemma HourCounted(hourly: map<nat, nat>, trace: seq<Hit>, hit: Hit)
    requires Counts(hourly, Hours(trace))
    ensures Counts(Bumped(hourly, hit.hour), Hours(trace + [hit]))
  {
    LongerTrace(trace, hit);
    CountOne(hourly, Hours(trace), hit.hour);
  }

  lemma PlaceCounted(locations: map<string, nat>, trace: seq<Hit>, hit: Hit)
    requires Counts(locations, Places(trace))
    ensures Counts(Bumped(locations, hit.slot.location), Places(trace + [hit]))
  {
    LongerTrace(trace, hit);
    CountOne(locations, Places(trace), hit.slot.location);
  }

  lemma TallyOne(hits: map<FindingKey, nat>, hourly: map<nat, nat>, locations: map<string, nat>, trace: seq<Hit>,
      hit: Hit)
    requires Tallied(hits, hourly, locations, trace)
    ensures Tallied(Bumped(hits, hit.slot.key), Bumped(hourly, hit.hour), Bumped(locations, hit.slot.location),
                    trace + [hit])
  {
    KeyCounted(hits, trace, hit);
    HourCounted(hourly, trace, hit);
    PlaceCounted(locations, trace, hit);
  }

  function Total<K>(m: map<K, nat>, keys: seq<K>): nat
    requires forall k :: k in keys ==> k in m
  {
    if keys == [] then 0 else Total(m, keys[..|keys| - 1]) + m[keys[|keys| - 1]]
  }

  ghost function Occurrences<K>(s: seq<K>, keys: seq<K>): nat {
    if keys == [] then 0 else Occurrences(s, keys[..|keys| - 1]) + multiset(s)[keys[|keys| - 1]]
  }

  lemma {:induction false} OneMoreOccurrence<K(!new)>(s: seq<K>, x: K, keys: seq<K>)
    requires Distinct(keys)
    ensures Occurrences(s + [x], keys) == Occurrences(s, keys) + (if x in keys then 1 else 0)
  {
    if keys != [] {
      var n := |keys| - 1;
      OneMoreOccurrence(s, x, keys[..n]);
      assert keys == keys[..n] + [keys[n]];
    }
  }

  lemma {:induction false} AllOccurrences<K(!new)>(s: seq<K>, keys: seq<K>)
    requires Distinct(keys) && forall x :: x in s ==> x in keys
    ensures Occurrences(s, keys) == |s|
  {
    if s == [] {
      NoOccurrences(keys);
    } else {
      var n := |s| - 1;
      assert s == s[..n] + [s[n]];
      AllOccurrences(s[..n], keys);
      OneMoreOccurrence(s[..n], s[n], keys);
    }
  }

  lemma {:induction false} NoOccurrences<K>(keys: seq<K>)
    ensures Occurrences([], keys) == 0
  {
    if keys != [] {
      NoOccurrences(keys[..|keys| - 1]);
    }
  }

  lemma {:induction false} TotalIsOccurrences<K(!new)>(m: map<K, nat>, s: seq<K>, keys: seq<K>)
    requires Counts(m, s) && forall k :: k in keys ==> k in m
    ensures Total(m, keys) == Occurrences(s, keys)
  {
    if keys != [] {
      TotalIsOccurrences(m, s, keys[..|keys| - 1]);
    }
  }

  ghost predicate Lists<K(!new)>(keys: seq<K>, m: map<K, nat>) {
    Distinct(keys) && forall k :: k in keys <==> k in m
  }

  /** A table of counts adds up to the number of things counted. */
  lemma TotalIsLength<K(!new)>(m: map<K, nat>, s: seq<K>, keys: seq<K>)
    requires Counts(m, s) && Lists(keys, m)
    ensures Total(m, keys) == |s|
  {
    TotalIsOccurrences(m, s, keys);
    AllOccurrences(s, keys);
  }

  lemma NextAssetSlots(assets: seq<AttackSurface.Asset>, a: nat)
    requires a < |assets|
    ensures AssetSlots(assets[..a + 1])
         == AssetSlots(assets[..a]) + SubjectSlots(assets[a].id, assets[a].location, VectorsFor(assets[a]))
  {
    assert assets[..a + 1][..a] == assets[..a];
  }

  method HasPriors(ghost assets: seq<AttackSurface.Asset>, byId: map<string, AttackSurface.Asset>,
      asset: AttackSurface.Asset)
      returns (priced: bool)
    requires AttackSurface.IsIndex(byId, assets)
    ensures priced <==> Priced(assets, asset)
  {
    assert AttackSurface.Latest(assets, asset.id) == if asset.id in byId then Some(byId[asset.id]) else None;
    priced := asset.id in byId && forall v :: v in VectorsFor(asset) ==> v in VectorsFor(byId[asset.id]);
  }

  class Tallies {
    var hits: map<FindingKey, nat>
    var hourly: map<nat, nat>
    var locations: map<string, nat>
    ghost var trace: seq<Hit>

    ghost predicate Valid()
      reads this
    {
      Tallied(hits, hourly, locations, trace)
    }

    constructor ()
      ensures Valid() && trace == []
    {
      var empty: map<nat, nat> := map[];
      for hour := 0 to 24
        invariant Counts(empty, [])
      {
        empty := empty[hour := 0];
      }
      hits, hourly, locations, trace := map[], empty, map[], [];
    }

    method Count(slot: Slot, hour: nat)
      requires Valid()
      modifies this
      ensures Valid() && trace == old(trace) + [Hit(slot, hour)]
    {
      TallyOne(hits, hourly, locations, trace, Hit(slot, hour));
      hits := Bumped(hits, slot.key);
      hourly := Bumped(hourly, hour);
      locations := Bumped(locations, slot.location);
      trace := trace + [Hit(slot, hour)];
    }

    /** At any moment the findings, the hours and the locations have counted the same number
        of hits. */
    lemma Conserved(keys: seq<FindingKey>, hours: seq<nat>, places: seq<string>)
      requires Valid() && Lists(keys, hits) && Lists(hours, hourly) && Lists(places, locations)
      ensures Total(hits, keys) == Total(hourly, hours) == Total(locations, places) == |trace|
    {
      TotalIsLength(hits, Keys(trace), keys);
      TotalIsLength(hourly, Hours(trace), hours);
      TotalIsLength(locations, Places(trace), places);
    }

    /** One draw. */
    method Sample(slot: Slot, i: nat, draw: nat, fires: set<(nat, nat)>, ghost before: seq<Hit>, ghost done: seq<Slot>)
      requires Valid() && draw == |done| && trace == before + Fired(done, fires, i)
      modifies this
      ensures Valid() && trace == before + Fired(done + [slot], fires, i)
    {
      assert (done + [slot])[..draw] == done;
      if (i, draw) in fires {
        Count(slot, i % 24);
      }
    }

    /** The draws of one subject. */
    method SampleSubject(subject: string, location: string, vectors: seq<Vector>, i: nat, draw: nat,
        fires: set<(nat, nat)>, ghost before: seq<Hit>, ghost done: seq<Slot>)
      requires Valid() && draw == |done| && trace == before + Fired(done, fires, i)
      modifies this
      ensures Valid() && trace == before + Fired(done + SubjectSlots(subject, location, vectors), fires, i)
    {
      assert done + SubjectSlots(subject, location, []) == done;
      for v := 0 to |vectors|
        invariant Valid()
        invariant trace == before + Fired(done + SubjectSlots(subject, location, vectors[..v]), fires, i)
      {
        ghost var sofar := done + SubjectSlots(subject, location, vectors[..v]);
        var slot := Slot(FindingKey(subject, vectors[v], ""), location);
        Sample(slot, i, draw + v, fires, before, sofar);
        assert sofar + [slot] == done + SubjectSlots(subject, location, vectors[..v + 1]);
      }
      assert vectors[..|vectors|] == vectors;
    }

    /** Throws at the first asset without a prior for one of its vectors; what was counted
        before is then of no use, because the whole run is abandoned. */
    method SampleAssets(assets: seq<AttackSurface.Asset>, byId: map<string, AttackSurface.Asset>, i: nat,
        fires: set<(nat, nat)>, ghost before: seq<Hit>)
        returns (draw: Result<nat>)
      requires Valid() && trace == before && AttackSurface.IsIndex(byId, assets)
      modifies this
      ensures Valid() && (draw.Ok? <==> forall a :: a in assets ==> Priced(assets, a))
      ensures draw.Ok? ==> trace == before + Fired(AssetSlots(assets), fires, i) && draw.value == |AssetSlots(assets)|
    {
      var drawn := 0;
      for a := 0 to |assets|
        invariant Valid() && drawn == |AssetSlots(assets[..a])|
        invariant trace == before + Fired(AssetSlots(assets[..a]), fires, i)
        invariant forall k :: 0 <= k < a ==> Priced(assets, assets[k])
      {
        var asset := assets[a];
        var priced := HasPriors(assets, byId, asset);
        if !priced {
          assert asset in assets;
          return Err;
        }
        NextAssetSlots(assets, a);
        SampleSubject(asset.id, asset.location, VectorsFor(asset), i, drawn, fires, before, AssetSlots(assets[..a]));
        drawn := drawn + |VectorsFor(asset)|;
      }
      assert assets[..|assets|] == assets;
      draw := Ok(drawn);
    }

    method SampleEdges(assets: seq<AttackSurface.Asset>, byId: map<string, AttackSurface.Asset>,
        edges: seq<AttackSurface.Edge>, i: nat, first: nat, fires: set<(nat, nat)>, ghost before: seq<Hit>,
        ghost done: seq<Slot>)
        returns (draw: nat)
      requires Valid() && first == |done| && trace == before + Fired(done, fires, i)
      requires AttackSurface.IsIndex(byId, assets)
      modifies this
      ensures Valid() && trace == before + Fired(done + EdgeSlots(assets, edges), fires, i)
      ensures draw == |done + EdgeSlots(assets, edges)|
    {
      draw := first;
      assert done + EdgeSlots(assets, []) == done;
      for e := 0 to |edges|
        invariant Valid() && draw == |done + EdgeSlots(assets, edges[..e])|
        invariant trace == before + Fired(done + EdgeSlots(assets, edges[..e]), fires, i)
      {
        assert edges[..e + 1][..e] == edges[..e];
        ghost var sofar := done + EdgeSlots(assets, edges[..e]);
        var edge := edges[e];
        if edge.fromId in byId && edge.toId in byId {
          var source, target := byId[edge.fromId], byId[edge.toId];
          var slot := Slot(FindingKey(target.id, edge.vector, source.id), target.location);
          assert EdgeSlot(assets, edge) == [slot];
          Sample(slot, i, draw, fires, before, sofar);
          draw := draw + 1;
        } else {
          assert EdgeSlot(assets, edge) == [] && sofar + [] == sofar;
        }
        assert sofar + EdgeSlot(assets, edge) == done + EdgeSlots(assets, edges[..e + 1]);
      }
      assert edges[..|edges|] == edges;
    }

    method SampleHumans(humans: seq<Human>, i: nat, first: nat, fires: set<(nat, nat)>, ghost before: seq<Hit>,
        ghost done: seq<Slot>)
      requires Valid() && first == |done| && trace == before + Fired(done, fires, i)
      modifies this
      ensures Valid() && trace == before + Fired(done + HumanSlots(humans), fires, i)
    {
      var draw := first;
      assert done + HumanSlots([]) == done;
      for h := 0 to |humans|
        invariant Valid() && draw == |done + HumanSlots(humans[..h])|
        invariant trace == before + Fired(done + HumanSlots(humans[..h]), fires, i)
      {
        assert humans[..h + 1][..h] == humans[..h];
        ghost var sofar := done + HumanSlots(humans[..h]);
        var human := humans[h];
        SampleSubject(HumanSubject(human), human.location, HUMAN_VECTORS, i, draw, fires, before, sofar);
        draw := draw + |HUMAN_VECTORS|;
        assert sofar + SubjectSlots(HumanSubject(human), human.location, HUMAN_VECTORS) ==
            done + HumanSlots(humans[..h + 1]);
      }
      assert humans[..|humans|] == humans;
    }

    method Run(s: Scenario, iterations: int, fires: set<(nat, nat)>) returns (done: Result<()>)
      requires Valid() && trace == []
      modifies this
      ensures Valid()
      ensures done.Ok? <==> 500 <= iterations <= 100000 && forall a :: a in s.assets ==> Priced(s.assets, a)
      ensures done.Ok? ==> trace == Trace(Slots(s), fires, iterations)
    {
      if iterations < 500 || iterations > 100000 {
        return Err;
      }
      var byId := AttackSurface.IndexAssets(s.assets);
      for i := 0 to iterations
        invariant Valid() && trace == Trace(Slots(s), fires, i)
        invariant i > 0 ==> forall a :: a in s.assets ==> Priced(s.assets, a)
      {
        ghost var before := trace;
        var drawn := SampleAssets(s.assets, byId, i, fires, before);
        if drawn.Err? {
          return Err;
        }
        ghost var sofar := AssetSlots(s.assets);
        var draw := SampleEdges(s.assets, byId, s.edges, i, drawn.value, fires, before, sofar);
        SampleHumans(s.humans, i, draw, fires, before, sofar + EdgeSlots(s.assets, s.edges));
      }
      done := Ok(());
    }
  }

  /** How often a finding is hit. */
  ghost function HitsOf(slots: seq<Slot>, fires: set<(nat, nat)>, n: nat, key: FindingKey): nat {
    multiset(Keys(Trace(slots, fires, n)))[key]
  }

  function SlotKeys(slots: seq<Slot>): seq<FindingKey> { seq(|slots|, i requires 0 <= i < |slots| => slots[i].key) }

  lemma KeysOfBoth(a: seq<Hit>, b: seq<Hit>)
    ensures Keys(a + b) == Keys(a) + Keys(b)
  {
  }

  lemma {:induction false} FiredAtMostOnce(slots: seq<Slot>, fires: set<(nat, nat)>, i: nat, key: FindingKey)
    ensures multiset(Keys(Fired(slots, fires, i)))[key] <= multiset(SlotKeys(slots))[key]
  {
    if slots != [] {
      var n := |slots| - 1;
      FiredAtMostOnce(slots[..n], fires, i, key);
      assert SlotKeys(slots) == SlotKeys(slots[..n]) + [slots[n].key];
      KeysOfBoth(Fired(slots[..n], fires, i), if (i, n) in fires then [Hit(slots[n], i % 24)] else []);
    }
  }

  lemma {:induction false} DistinctBounds(slots: seq<Slot>, fires: set<(nat, nat)>, n: nat, key: FindingKey)
    requires Distinct(SlotKeys(slots))
    ensures HitsOf(slots, fires, n, key) <= n
  {
    if n > 0 {
      DistinctBounds(slots, fires, n - 1, key);
      FiredAtMostOnce(slots, fires, n - 1, key);
      OccursOnce(SlotKeys(slots), key);
      KeysOfBoth(Trace(slots, fires, n - 1), Fired(slots, fires, n - 1));
    }
  }

  ghost predicate FiresAlways(slots: seq<Slot>, fires: set<(nat, nat)>, n: nat) {
    forall i, j :: 0 <= i < n && 0 <= j < |slots| ==> (i, j) in fires
  }

  lemma {:induction false} EverySlotFires(slots: seq<Slot>, fires: set<(nat, nat)>, i: nat)
    requires forall j :: 0 <= j < |slots| ==> (i, j) in fires
    ensures Keys(Fired(slots, fires, i)) == SlotKeys(slots)
  {
    if slots != [] {
      var n := |slots| - 1;
      EverySlotFires(slots[..n], fires, i);
      assert SlotKeys(slots) == SlotKeys(slots[..n]) + [slots[n].key];
      KeysOfBoth(Fired(slots[..n], fires, i), [Hit(slots[n], i % 24)]);
    }
  }

  lemma LastIteration(slots: seq<Slot>, fires: set<(nat, nat)>, n: nat, key: FindingKey)
    requires n > 0
    ensures HitsOf(slots, fires, n, key)
         == HitsOf(slots, fires, n - 1, key) + multiset(Keys(Fired(slots, fires, n - 1)))[key]
  {
    KeysOfBoth(Trace(slots, fires, n - 1), Fired(slots, fires, n - 1));
  }

  lemma IterationRepeats(slots: seq<Slot>, fires: set<(nat, nat)>, i: nat, a: nat, b: nat)
    requires a < b < |slots| && slots[a].key == slots[b].key && forall j :: 0 <= j < |slots| ==> (i, j) in fires
    ensures multiset(Keys(Fired(slots, fires, i)))[slots[a].key] >= 2
  {
    EverySlotFires(slots, fires, i);
    OccursTwice(SlotKeys(slots), a, b);
  }

  lemma {:induction false} RepeatExceeds(slots: seq<Slot>, fires: set<(nat, nat)>, n: nat, a: nat, b: nat)
    requires a < b < |slots| && slots[a].key == slots[b].key && FiresAlways(slots, fires, n)
    ensures HitsOf(slots, fires, n, slots[a].key) >= 2 * n
  {
    if n > 0 {
      RepeatExceeds(slots, fires, n - 1, a, b);
      IterationRepeats(slots, fires, n - 1, a, b);
      LastIteration(slots, fires, n, slots[a].key);
    }
  }

  /** No finding is hit more often than there are iterations, whatever the draws, exactly when
      no two draws of an iteration count towards the same finding. */
  lemma HitsBounded(slots: seq<Slot>, n: nat)
    requires n > 0
    ensures (forall fires: set<(nat, nat)>, key :: HitsOf(slots, fires, n, key) <= n) <==> Distinct(SlotKeys(slots))
  {
    if Distinct(SlotKeys(slots)) {
      forall fires: set<(nat, nat)>, key
        ensures HitsOf(slots, fires, n, key) <= n
      {
        DistinctBounds(slots, fires, n, key);
      }
    } else {
      var a, b :| 0 <= a < b < |slots| && SlotKeys(slots)[a] == SlotKeys(slots)[b];
      var always := set i: nat, j: nat | i < n && j < |slots| :: (i, j);
      RepeatExceeds(slots, always, n, a, b);
    }
  }
}
