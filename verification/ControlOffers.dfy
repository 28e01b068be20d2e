/** What the candidates of the control search are: each one field of one surface moved one
    step, with the modelled risk of the packet so changed, and none forgotten. */
module ControlOffers {
  import opened Prelude
  import opened Scanner
  import opened Controls

  const STEP := 0.15

  lemma {:induction false} FindIsFirst(surfaces: seq<Surface>, id: string)
    ensures Find(surfaces, id) <= |surfaces|
    ensures Find(surfaces, id) < |surfaces| ==> surfaces[Find(surfaces, id)].id == id
    ensures forall j :: 0 <= j < Find(surfaces, id) ==> surfaces[j].id != id
  {
    if surfaces != [] && surfaces[0].id != id {
      FindIsFirst(surfaces[1..], id);
      assert forall j :: 0 < j < |surfaces| ==> surfaces[1..][j - 1] == surfaces[j];
    }
  }

  /** `at` is the first surface with the identifier. */
  predicate FirstWith(packet: Packet, id: string, at: nat) {
    at < |packet.surfaces| && packet.surfaces[at].id == id && forall j :: 0 <= j < at ==> packet.surfaces[j].id != id
  }

  /** The packet with one surface replaced. */
  function Replaced(packet: Packet, at: nat, s: Surface): Packet
    requires at < |packet.surfaces|
  {
    packet.(surfaces := packet.surfaces[at := s])
  }

  /** One field is moved by a step the way that helps, and the residual is the modelled risk of
      the packet in which that field alone is moved. */
  predicate Tried(sigmoid: real -> real, packet: Packet, at: nat, c: Candidate)
    requires at < |packet.surfaces|
  {
    var s := packet.surfaces[at];
    match c.field
    case ControlStrength =>
      && c.before == s.controlStrength && c.after == Clamp(s.controlStrength + STEP)
      && FastRisk(sigmoid, Replaced(packet, at, s.(controlStrength := c.after))) == Ok(c.residual)
    case Exposure =>
      && c.before == s.exposure && c.after == Clamp(s.exposure - STEP)
      && FastRisk(sigmoid, Replaced(packet, at, s.(exposure := c.after))) == Ok(c.residual)
    case TelemetryConfidence =>
      && c.before == s.telemetryConfidence && c.after == Clamp(s.telemetryConfidence + STEP)
      && FastRisk(sigmoid, Replaced(packet, at, s.(telemetryConfidence := c.after))) == Ok(c.residual)
    case HumanPressure =>
      && c.before == s.humanPressure && c.after == Clamp(s.humanPressure - STEP)
      && FastRisk(sigmoid, Replaced(packet, at, s.(humanPressure := c.after))) == Ok(c.residual)
  }

  /** The modelled risk of a valid packet is that of its own surfaces and links. */
  lemma RiskOfValid(sigmoid: real -> real, packet: Packet)
    requires ValidPacket(packet)
    ensures FastRisk(sigmoid, packet) == Ok(Simulated(sigmoid, packet.surfaces, packet.links).overallRisk)
  {
    ValidateNormalizes(packet);
  }

  function DefaultCost(f: Field): real {
    match f
    case ControlStrength => 2.0
    case Exposure => 3.0
    case TelemetryConfidence => 1.5
    case HumanPressure => 2.5
  }

  /** The cost is the configured one or the default, a tenth at least, and the efficiency the
      reduction it buys. */
  predicate Costed(c: Candidate, costs: Costs, baseline: real) {
    && c.cost == RMax(0.1, if (c.surfaceId, c.field) in costs then costs[(c.surfaceId, c.field)]
                           else DefaultCost(c.field))
    && c.reduction == RMax(0.0, baseline - c.residual) && c.efficiency == c.reduction / c.cost
  }

  /** A candidate for a listed surface of the packet, the first with its identifier. */
  ghost predicate Genuine(sigmoid: real -> real, packet: Packet, hotspots: seq<string>, costs: Costs, baseline: real,
      c: Candidate) {
    && c.surfaceId in hotspots && Costed(c, costs, baseline)
    && exists at :: FirstWith(packet, c.surfaceId, at) && Tried(sigmoid, packet, at, c)
  }

  lemma OfferIsGenuine(sigmoid: real -> real, packet: Packet, at: nat, a: Action, costs: Costs, baseline: real,
      c: Candidate)
    requires at < |packet.surfaces| && a in ACTIONS && c in Offered(sigmoid, packet, at, a, costs, baseline)
    ensures c.surfaceId == packet.surfaces[at].id && c.field == a.field
    ensures Tried(sigmoid, packet, at, c) && Costed(c, costs, baseline)
  {
  }

  lemma {:induction false} OffersAreGenuine(sigmoid: real -> real, packet: Packet, at: nat, actions: seq<Action>,
      costs: Costs, baseline: real, c: Candidate)
    requires at < |packet.surfaces| && forall a :: a in actions ==> a in ACTIONS
    requires c in OfferedBy(sigmoid, packet, at, actions, costs, baseline)
    ensures c.surfaceId == packet.surfaces[at].id && Tried(sigmoid, packet, at, c) && Costed(c, costs, baseline)
  {
    var n := |actions| - 1;
    assert actions[n] in actions;
    if c in OfferedBy(sigmoid, packet, at, actions[..n], costs, baseline) {
      OffersAreGenuine(sigmoid, packet, at, actions[..n], costs, baseline, c);
    } else {
      OfferIsGenuine(sigmoid, packet, at, actions[n], costs, baseline, c);
    }
  }

  /** Every candidate is what it says. */
  lemma {:induction false} CandidatesAreGenuine(sigmoid: real -> real, packet: Packet, hotspots: seq<string>,
      costs: Costs, baseline: real, c: Candidate)
    requires c in Candidates(sigmoid, packet, hotspots, costs, baseline)
    ensures Genuine(sigmoid, packet, hotspots, costs, baseline, c)
  {
    var n := |hotspots| - 1;
    var at := Find(packet.surfaces, hotspots[n]);
    if c in Candidates(sigmoid, packet, hotspots[..n], costs, baseline) {
      CandidatesAreGenuine(sigmoid, packet, hotspots[..n], costs, baseline, c);
    } else {
      FindIsFirst(packet.surfaces, hotspots[n]);
      OffersAreGenuine(sigmoid, packet, at, ACTIONS, costs, baseline, c);
      assert FirstWith(packet, c.surfaceId, at);
    }
  }

  // ---- none is forgotten ----

  /** How many candidates there are for one field of one surface. */
  function CountFor(candidates: seq<Candidate>, id: string, f: Field): nat {
    if candidates == [] then 0
    else
      var last := candidates[|candidates| - 1];
      CountFor(candidates[..|candidates| - 1], id, f) + if last.surfaceId == id && last.field == f then 1 else 0
  }

  lemma {:induction false} CountBoth(a: seq<Candidate>, b: seq<Candidate>, id: string, f: Field)
    ensures CountFor(a + b, id, f) == CountFor(a, id, f) + CountFor(b, id, f)
  {
    if b == [] {
      assert a + b == a;
    } else {
      var front, last := b[..|b| - 1], b[|b| - 1];
      assert (a + b)[..|a + b| - 1] == a + front && (a + b)[|a + b| - 1] == last;
      CountBoth(a, front, id, f);
    }
  }

  /** The field before and after its step. */
  function Moved(s: Surface, f: Field): (real, real) {
    match f
    case ControlStrength => (s.controlStrength, Clamp(s.controlStrength + STEP))
    case Exposure => (s.exposure, Clamp(s.exposure - STEP))
    case TelemetryConfidence => (s.telemetryConfidence, Clamp(s.telemetryConfidence + STEP))
    case HumanPressure => (s.humanPressure, Clamp(s.humanPressure - STEP))
  }

  /** The step changes the field by more than a billionth, or than a billionth of the larger value. */
  predicate Moves(s: Surface, f: Field) {
    var (before, after) := Moved(s, f);
    var gap := if before < after then after - before else before - after;
    gap > 0.000_000_001 && gap > 0.000_000_001 * RMax(Abs(before), Abs(after))
  }

  /** For one field of one surface. */
  function For(id: string, f: Field): Candidate -> bool { (c: Candidate) => c.surfaceId == id && c.field == f }

  lemma CountForAdds(count: seq<Candidate> -> nat, id: string, f: Field)
    requires count == (cs => CountFor(cs, id, f))
    ensures Adds(count, For(id, f))
  {
    forall c
      ensures CountFor([c], id, f) == if c.surfaceId == id && c.field == f then 1 else 0
    {
      assert [c][..0] == [];
    }
    forall a, b
      ensures CountFor(a + b, id, f) == CountFor(a, id, f) + CountFor(b, id, f)
    {
      CountBoth(a, b, id, f);
    }
  }

  lemma OfferCounts(sigmoid: real -> real, packet: Packet, at: nat, a: Action, costs: Costs, baseline: real,
      id: string, f: Field, count: seq<Candidate> -> nat)
    requires at < |packet.surfaces| <= MAX_SURFACES && a in ACTIONS && Adds(count, For(id, f))
    ensures count(Offered(sigmoid, packet, at, a, costs, baseline)) ==
        if packet.surfaces[at].id == id && a.field == f && Moves(packet.surfaces[at], f) then 1 else 0
  {
    var s := packet.surfaces[at];
    ValidateNormalizes(Changed(packet, at, a));
    assert Moved(s, a.field) == (Get(s, a.field), After(s, a));
  }

  /** The place of a field's action among the four. */
  function Turn(f: Field): nat {
    match f
    case ControlStrength => 0
    case Exposure => 1
    case TelemetryConfidence => 2
    case HumanPressure => 3
  }

  lemma TurnsTaken(n: nat, f: Field)
    requires n < 4
    ensures |ACTIONS| == 4 && (ACTIONS[n].field == f <==> Turn(f) == n)
  {
  }

  lemma {:induction false} UpToCount(sigmoid: real -> real, packet: Packet, at: nat, costs: Costs, baseline: real,
      id: string, f: Field, n: nat, count: seq<Candidate> -> nat, offers: bool)
    requires at < |packet.surfaces| <= MAX_SURFACES && n <= |ACTIONS| && Adds(count, For(id, f))
    requires offers <==> packet.surfaces[at].id == id && Moves(packet.surfaces[at], f)
    ensures count(OfferedBy(sigmoid, packet, at, ACTIONS[..n], costs, baseline))
         == if offers && Turn(f) < n then 1 else 0
  {
    if n > 0 {
      UpToCount(sigmoid, packet, at, costs, baseline, id, f, n - 1, count, offers);
      OneMoreAction(sigmoid, packet, at, costs, baseline, id, f, n, count);
    }
  }

  lemma OneMoreAction(sigmoid: real -> real, packet: Packet, at: nat, costs: Costs, baseline: real, id: string,
      f: Field, n: nat, count: seq<Candidate> -> nat)
    requires at < |packet.surfaces| <= MAX_SURFACES && 0 < n <= |ACTIONS| && Adds(count, For(id, f))
    ensures count(OfferedBy(sigmoid, packet, at, ACTIONS[..n], costs, baseline))
         == count(OfferedBy(sigmoid, packet, at, ACTIONS[..n - 1], costs, baseline))
            + if packet.surfaces[at].id == id && Turn(f) == n - 1 && Moves(packet.surfaces[at], f) then 1 else 0
  {
    var action := ACTIONS[n - 1];
    assert action in ACTIONS && ACTIONS[..n][..n - 1] == ACTIONS[..n - 1];
    TurnsTaken(n - 1, f);
    OfferCounts(sigmoid, packet, at, action, costs, baseline, id, f, count);
  }

  lemma OffersCount(sigmoid: real -> real, packet: Packet, at: nat, costs: Costs, baseline: real, id: string, f: Field,
      count: seq<Candidate> -> nat, offers: bool)
    requires at < |packet.surfaces| <= MAX_SURFACES && Adds(count, For(id, f))
    requires offers <==> packet.surfaces[at].id == id && Moves(packet.surfaces[at], f)
    ensures count(OfferedBy(sigmoid, packet, at, ACTIONS, costs, baseline)) == if offers then 1 else 0
  {
    UpToCount(sigmoid, packet, at, costs, baseline, id, f, 4, count, offers);
    assert ACTIONS[..4] == ACTIONS;
  }

  /** The first surface with the identifier, if any, has the field moved by its step. */
  predicate Movable(packet: Packet, id: string, f: Field) {
    exists at :: 0 <= at < |packet.surfaces| && FirstWith(packet, id, at) && Moves(packet.surfaces[at], f)
  }

  lemma FirstMoves(packet: Packet, id: string, at: nat, f: Field)
    requires at == Find(packet.surfaces, id)
    ensures Movable(packet, id, f) <==> at < |packet.surfaces| && Moves(packet.surfaces[at], f)
    ensures at < |packet.surfaces| ==> packet.surfaces[at].id == id
  {
    FindIsFirst(packet.surfaces, id);
    if at < |packet.surfaces| {
      assert FirstWith(packet, id, at);
    }
  }

  /** What one listing adds. */
  lemma ListingCounts(sigmoid: real -> real, packet: Packet, hotspots: seq<string>, costs: Costs, baseline: real,
      id: string, f: Field, count: seq<Candidate> -> nat, offers: bool)
    requires |packet.surfaces| <= MAX_SURFACES && hotspots != [] && Adds(count, For(id, f))
    requires offers <==> hotspots[|hotspots| - 1] == id && Movable(packet, id, f)
    ensures count(Candidates(sigmoid, packet, hotspots, costs, baseline))
         == count(Candidates(sigmoid, packet, hotspots[..|hotspots| - 1], costs, baseline)) + if offers then 1 else 0
  {
    var hotspot := hotspots[|hotspots| - 1];
    var at := Find(packet.surfaces, hotspot);
    FirstMoves(packet, hotspot, at, f);
    if at < |packet.surfaces| {
      OffersCount(sigmoid, packet, at, costs, baseline, id, f, count, offers);
    }
  }

  /** Each further listing of the surface counts once, if it counts at all. */
  ghost predicate CountsListings(total: seq<string> -> nat, id: string, counts: bool) {
    && total([]) == 0
    && forall listed, next :: total(listed + [next]) == total(listed) + if counts && next == id then 1 else 0
  }

  lemma {:induction false} ListingsCounted(total: seq<string> -> nat, id: string, counts: bool, listed: seq<string>)
    requires CountsListings(total, id, counts)
    ensures total(listed) == if counts then multiset(listed)[id] else 0
  {
    if listed != [] {
      var n := |listed| - 1;
      assert listed == listed[..n] + [listed[n]];
      ListingsCounted(total, id, counts, listed[..n]);
    }
  }

  /** Each listing of a surface brings exactly one candidate for every field that moves. */
  lemma EveryMoveIsOffered(sigmoid: real -> real, packet: Packet, hotspots: seq<string>, costs: Costs,
      baseline: real, id: string, f: Field)
    requires |packet.surfaces| <= MAX_SURFACES
    ensures CountFor(Candidates(sigmoid, packet, hotspots, costs, baseline), id, f) ==
        if Movable(packet, id, f) then multiset(hotspots)[id] else 0
  {
    var count := cs => CountFor(cs, id, f);
    var total := listed => count(Candidates(sigmoid, packet, listed, costs, baseline));
    var movable := Movable(packet, id, f);
    CountForAdds(count, id, f);
    forall listed, next
      ensures total(listed + [next]) == total(listed) + if movable && next == id then 1 else 0
    {
      assert (listed + [next])[..|listed|] == listed;
      ListingCounts(sigmoid, packet, listed + [next], costs, baseline, id, f, count, movable && next == id);
    }
    assert Candidates(sigmoid, packet, [], costs, baseline) == [];
    ListingsCounted(total, id, movable, hotspots);
  }
}
