/** The control search: candidate actions on hotspot surfaces, and the Pareto frontier of
    cost against modelled risk reduction. */
module Controls {
  import opened Prelude
  import opened Scanner
  import opened Strengthening

  datatype Field = ControlStrength | Exposure | TelemetryConfidence | HumanPressure

  datatype Action = Action(field: Field, direction: real, amount: real, defaultCost: real)

  const ACTIONS: seq<Action> := [
    Action(ControlStrength, 1.0, 0.15, 2.0), Action(Exposure, -1.0, 0.15, 3.0),
    Action(TelemetryConfidence, 1.0, 0.15, 1.5), Action(HumanPressure, -1.0, 0.15, 2.5)]

  function Get(s: Surface, f: Field): real {
    match f
    case ControlStrength => s.controlStrength
    case Exposure => s.exposure
    case TelemetryConfidence => s.telemetryConfidence
    case HumanPressure => s.humanPressure
  }

  function Set(s: Surface, f: Field, value: real): Surface {
    match f
    case ControlStrength => s.(controlStrength := value)
    case Exposure => s.(exposure := value)
    case TelemetryConfidence => s.(telemetryConfidence := value)
    case HumanPressure => s.(humanPressure := value)
  }

  /** `_find_surface`: the first surface with the identifier, or the length. */
  function Find(surfaces: seq<Surface>, id: string): nat {
    if surfaces == [] || surfaces[0].id == id then 0 else 1 + Find(surfaces[1..], id)
  }

  /** The packet after one action on the surface at `at`. */
  function Changed(packet: Packet, at: nat, a: Action): Packet
    requires at < |packet.surfaces|
  {
    var s := packet.surfaces[at];
    packet.(surfaces := packet.surfaces[at := Set(s, a.field, After(s, a))])
  }

  function After(s: Surface, a: Action): real { Clamp(Get(s, a.field) + a.direction * a.amount) }

  /** `math.isclose(a, b, abs_tol=1e-9)` with its default relative tolerance. */
  predicate IsClose(a: real, b: real) {
    Abs(a - b) <= RMax(0.000_000_001 * RMax(Abs(a), Abs(b)), 0.000_000_001)
  }

  function Abs(x: real): real { if x < 0.0 then -x else x }

  /** `_fast_simulation`, which validates its packet again. */
  function FastRisk(sigmoid: real -> real, packet: Packet): Result<real> {
    match Validate(packet)
    case Err => Err
    case Ok(v) => Ok(Simulated(sigmoid, v.surfaces, v.links).overallRisk)
  }

  datatype Candidate = Candidate(surfaceId: string, field: Field, before: real, after: real, cost: real,
                                 reduction: real, residual: real, efficiency: real)

  type Costs = map<(string, Field), real>

  function CandidateOf(s: Surface, a: Action, costs: Costs, baseline: real, residual: real): Candidate {
    var cost := if (s.id, a.field) in costs then costs[(s.id, a.field)] else a.defaultCost;
    var reduction := RMax(0.0, baseline - residual);
    Candidate(s.id, a.field, Get(s, a.field), After(s, a), RMax(0.1, cost), reduction, residual,
        reduction / RMax(0.1, cost))
  }

  /** The candidates an action on a surface offers: none when it would change nothing. */
  function Offered(sigmoid: real -> real, packet: Packet, at: nat, a: Action, costs: Costs,
      baseline: real): seq<Candidate>
    requires at < |packet.surfaces|
  {
    var s := packet.surfaces[at];
    var risk := FastRisk(sigmoid, Changed(packet, at, a));
    if IsClose(Get(s, a.field), After(s, a)) || risk.Err? then [] else [CandidateOf(s, a, costs, baseline, risk.value)]
  }

  function OfferedBy(sigmoid: real -> real, packet: Packet, at: nat, actions: seq<Action>, costs: Costs,
      baseline: real): seq<Candidate>
    requires at < |packet.surfaces|
  {
    if actions == [] then []
    else OfferedBy(sigmoid, packet, at, actions[..|actions| - 1], costs, baseline)
         + Offered(sigmoid, packet, at, actions[|actions| - 1], costs, baseline)
  }

  function Candidates(sigmoid: real -> real, packet: Packet, hotspots: seq<string>, costs: Costs,
      baseline: real): seq<Candidate> {
    if hotspots == [] then []
    else
      var earlier := Candidates(sigmoid, packet, hotspots[..|hotspots| - 1], costs, baseline);
      var at := Find(packet.surfaces, hotspots[|hotspots| - 1]);
      if at < |packet.surfaces| then earlier + OfferedBy(sigmoid, packet, at, ACTIONS, costs, baseline) else earlier
  }

  /** Strengthening: a valid packet stays valid, and only the acted-on surface gets safer. */
  lemma ActionIsSafer(packet: Packet, at: nat, a: Action)
    requires ValidPacket(packet) && at < |packet.surfaces| && a in ACTIONS
    ensures ValidPacket(Changed(packet, at, a))
    ensures AllSafer(Changed(packet, at, a).surfaces, packet.surfaces)
  {
    var s, changed := packet.surfaces[at], Changed(packet, at, a);
    assert s in packet.surfaces && ValidSurface(s);
    assert Safer(changed.surfaces[at], s) && ValidSurface(changed.surfaces[at]);
    SameIds(packet.surfaces, changed.surfaces);
    forall l | l in packet.links
      ensures NormalLink(changed.surfaces, l)
    {
      assert NormalLink(packet.surfaces, l);
    }
    forall t | t in changed.surfaces
      ensures ValidSurface(t)
    {
      var i :| 0 <= i < |changed.surfaces| && changed.surfaces[i] == t;
      assert i != at ==> t in packet.surfaces;
    }
  }

  lemma SameIds(surfaces: seq<Surface>, surfaces': seq<Surface>)
    requires |surfaces| == |surfaces'| && forall i :: 0 <= i < |surfaces| ==> surfaces[i].id == surfaces'[i].id
    ensures forall id :: Known(surfaces, id) ==> Known(surfaces', id)
  {
    forall id | Known(surfaces, id)
      ensures Known(surfaces', id)
    {
      var i :| 0 <= i < |surfaces| && surfaces[i].id == id;
      assert surfaces'[i] in surfaces';
    }
  }

  /** No offered action ever raises the modelled overall risk. */
  lemma ActionNeverRaisesRisk(sigmoid: real -> real, packet: Packet, at: nat, a: Action)
    requires Sigmoid(sigmoid) && ValidPacket(packet) && at < |packet.surfaces| && a in ACTIONS
    ensures FastRisk(sigmoid, packet).Ok? && FastRisk(sigmoid, Changed(packet, at, a)).Ok?
    ensures FastRisk(sigmoid, Changed(packet, at, a)).value <= FastRisk(sigmoid, packet).value
  {
    var changed := Changed(packet, at, a);
    ActionIsSafer(packet, at, a);
    ValidateNormalizes(packet);
    ValidateNormalizes(changed);
    SaferNeverRiskier(sigmoid, changed.surfaces, packet.surfaces, packet.links);
  }

  /** A candidate whose reduction is exact: clipping at zero cut nothing. */
  predicate Unclipped(c: Candidate, baseline: real) { c.residual <= baseline && c.reduction == baseline - c.residual }

  lemma {:induction false} OfferedUnclipped(sigmoid: real -> real, packet: Packet, at: nat, actions: seq<Action>,
      costs: Costs, baseline: real)
    requires Sigmoid(sigmoid) && ValidPacket(packet) && at < |packet.surfaces|
    requires FastRisk(sigmoid, packet) == Ok(baseline)
    requires forall a :: a in actions ==> a in ACTIONS
    ensures |OfferedBy(sigmoid, packet, at, actions, costs, baseline)| <= |actions|
    ensures forall c :: c in OfferedBy(sigmoid, packet, at, actions, costs, baseline) ==>
        Unclipped(c, baseline) && c.cost >= 0.1
  {
    if actions != [] {
      var n := |actions| - 1;
      OfferedUnclipped(sigmoid, packet, at, actions[..n], costs, baseline);
      assert actions[n] in actions;
      ActionNeverRaisesRisk(sigmoid, packet, at, actions[n]);
    }
  }

  /** End to end: every candidate's reduction is the baseline minus its residual risk, and
      there are at most four candidates per hotspot. */
  lemma {:induction false} CandidatesUnclipped(sigmoid: real -> real, packet: Packet, hotspots: seq<string>,
      costs: Costs, baseline: real)
    requires Sigmoid(sigmoid) && ValidPacket(packet)
    requires FastRisk(sigmoid, packet) == Ok(baseline)
    ensures forall c :: c in Candidates(sigmoid, packet, hotspots, costs, baseline) ==>
        Unclipped(c, baseline) && c.cost >= 0.1
    ensures |Candidates(sigmoid, packet, hotspots, costs, baseline)| <= 4 * |hotspots|
  {
    if hotspots != [] {
      var n := |hotspots| - 1;
      CandidatesUnclipped(sigmoid, packet, hotspots[..n], costs, baseline);
      var at := Find(packet.surfaces, hotspots[n]);
      if at < |packet.surfaces| {
        OfferedUnclipped(sigmoid, packet, at, ACTIONS, costs, baseline);
      }
    }
  }

  /** The non-empty identifiers of the ranking, in order. */
  function RankedIds(findings: seq<Finding>): seq<string> {
    if findings == [] then []
    else
      var last := findings[|findings| - 1].id;
      RankedIds(findings[..|findings| - 1]) + (if last != "" then [last] else [])
  }

  /** The identifiers a hotspot list draws on, each where the ranking first has it. */
  function Hotspots(findings: seq<Finding>): seq<string> { Unique(RankedIds(findings)) }

  lemma HotspotNext(findings: seq<Finding>, n: nat)
    requires n < |findings|
    ensures var ids, id := Hotspots(findings[..n]), findings[n].id;
            Hotspots(findings[..n + 1]) == if id != "" && id !in ids then ids + [id] else ids
  {
    var ranked, id := RankedIds(findings[..n]), findings[n].id;
    assert findings[..n + 1][..n] == findings[..n];
    if id != "" {
      assert (ranked + [id])[..|ranked|] == ranked;
    } else {
      assert ranked + [] == ranked;
    }
  }

  lemma {:induction false} PrefixRanked(findings: seq<Finding>, n: nat)
    requires n <= |findings|
    ensures Hotspots(findings[..n]) <= Hotspots(findings)
    decreases |findings| - n
  {
    if n < |findings| {
      HotspotNext(findings, n);
      PrefixRanked(findings, n + 1);
    } else {
      assert findings[..n] == findings;
    }
  }

  lemma PrefixTaken(ids: seq<string>, all: seq<string>, limit: nat)
    requires ids <= all && |ids| == limit
    ensures ids == Take(all, limit)
  {
  }

  /** Where the loop stops: at the limit, or below one after the first finding. */
  lemma HotspotsStop(findings: seq<Finding>, i: nat, limit: int, earlier: seq<string>, ids: seq<string>)
    requires i < |findings| && ids == Hotspots(findings[..i + 1])
    requires |ids| <= |earlier| + 1 && |ids| >= limit
    requires if i == 0 then earlier == [] else |earlier| < limit
    ensures limit >= 1 ==> ids == Take(Hotspots(findings), limit)
    ensures limit < 1 ==> ids == Hotspots(Take(findings, 1))
  {
    if limit >= 1 {
      PrefixRanked(findings, i + 1);
      PrefixTaken(ids, Hotspots(findings), limit);
    } else {
      assert findings[..i + 1] == Take(findings, 1);
    }
  }

  /** `_hotspot_ids`: the first `limit` distinct identifiers of the ranking, most risky first. A
      limit below one is only looked at after the first finding. */
  method HotspotIds(findings: seq<Finding>, limit: int) returns (ids: seq<string>)
    ensures limit >= 1 ==> ids == Take(Hotspots(findings), limit)
    ensures limit < 1 ==> ids == Hotspots(Take(findings, 1))
  {
    ids := [];
    for i := 0 to |findings|
      invariant ids == Hotspots(findings[..i])
      invariant if i == 0 then ids == [] else |ids| < limit
    {
      HotspotNext(findings, i);
      ghost var earlier := ids;
      var id := findings[i].id;
      if id != "" && id !in ids {
        ids := ids + [id];
      }
      if |ids| >= limit {
        HotspotsStop(findings, i, limit, earlier, ids);
        return;
      }
    }
    assert findings[..|findings|] == findings;
  }

  /** They are the non-empty identifiers of findings, each once. */
  lemma HotspotsNamed(findings: seq<Finding>)
    ensures Distinct(Hotspots(findings))
    ensures forall id :: id in Hotspots(findings) <==> id != "" && exists f :: f in findings && f.id == id
  {
    UniqueElements(RankedIds(findings));
    RankedNamed(findings);
  }

  lemma {:induction false} RankedNamed(findings: seq<Finding>)
    ensures forall id :: id in RankedIds(findings) <==> id != "" && exists f :: f in findings && f.id == id
  {
    if findings != [] {
      var front, last := findings[..|findings| - 1], findings[|findings| - 1];
      RankedNamed(front);
      assert findings == front + [last];
    }
  }
}
