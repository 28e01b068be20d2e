/** The modelled overall risk of a scenario: normalization, one probability and impact per
    surface, propagation over the links, and the mean of the twelve largest risks. */
module Scanner {
  import opened Prelude
  import opened Sorting
  import opened Propagation

  const MAX_SURFACES := 1024
  const TOP := 12

  datatype Surface = Surface(
    id: string, criticality: real, exposure: real, controlStrength: real, humanPressure: real,
    telemetryConfidence: real, signals: nat)

  datatype Packet = Packet(surfaces: seq<Surface>, links: seq<Link>)

  /** `math.exp` enters only through the logistic function. */
  ghost predicate Sigmoid(f: real -> real) {
    && (forall x :: 0.0 < f(x) < 1.0)
    && (forall x, y :: x <= y ==> f(x) <= f(y))
  }

  // ---- validate ----

  function Normalize(s: Surface): Surface {
    Surface(s.id, Clamp(s.criticality), Clamp(s.exposure), Clamp(s.controlStrength), Clamp(s.humanPressure),
            Clamp(s.telemetryConfidence), Min(s.signals, 64))
  }

  function NormalizeAll(surfaces: seq<Surface>): seq<Surface> {
    seq(|surfaces|, i requires 0 <= i < |surfaces| => Normalize(surfaces[i]))
  }

  predicate Known(surfaces: seq<Surface>, id: string) { exists s :: s in surfaces && s.id == id }

  /** Links between different known surfaces, clamped; the others are dropped. */
  function NormalizeLinks(surfaces: seq<Surface>, links: seq<Link>): seq<Link> {
    if links == [] then []
    else
      var front, l := NormalizeLinks(surfaces, links[..|links| - 1]), links[|links| - 1];
      if Known(surfaces, l.source) && Known(surfaces, l.target) && l.source != l.target
      then front + [Link(l.source, l.target, Clamp(l.trust), Clamp(l.control))]
      else front
  }

  function Validate(packet: Packet): Result<Packet> {
    if packet.surfaces == [] || |packet.surfaces| > MAX_SURFACES then Err
    else
      var surfaces := NormalizeAll(packet.surfaces);
      Ok(Packet(surfaces, NormalizeLinks(surfaces, Take(packet.links, MAX_SURFACES * 8))))
  }

  predicate ValidSurface(s: Surface) {
    && UnitInterval(s.criticality) && UnitInterval(s.exposure) && UnitInterval(s.controlStrength)
    && UnitInterval(s.humanPressure) && UnitInterval(s.telemetryConfidence) && s.signals <= 64
  }

  ghost predicate ValidPacket(packet: Packet) {
    && 0 < |packet.surfaces| <= MAX_SURFACES && |packet.links| <= MAX_SURFACES * 8
    && (forall s :: s in packet.surfaces ==> ValidSurface(s))
    && (forall l :: l in packet.links ==> NormalLink(packet.surfaces, l))
  }

  predicate NormalLink(surfaces: seq<Surface>, l: Link) {
    ValidLink(l) && Known(surfaces, l.source) && Known(surfaces, l.target) && l.source != l.target
  }

  lemma {:induction false} LinksNormalized(surfaces: seq<Surface>, links: seq<Link>)
    ensures |NormalizeLinks(surfaces, links)| <= |links|
    ensures forall l :: l in NormalizeLinks(surfaces, links) ==> NormalLink(surfaces, l)
  {
    if links != [] {
      LinksNormalized(surfaces, links[..|links| - 1]);
    }
  }

  lemma {:induction false} NormalLinksKept(surfaces: seq<Surface>, links: seq<Link>)
    requires forall l :: l in links ==> NormalLink(surfaces, l)
    ensures NormalizeLinks(surfaces, links) == links
  {
    if links != [] {
      var front, l := links[..|links| - 1], links[|links| - 1];
      assert l in links && forall k :: k in front ==> k in links;
      NormalLinksKept(surfaces, front);
      assert links == front + [l];
    }
  }

  /** Validation yields a valid packet, and changes a packet exactly when it was not valid. */
  lemma ValidateNormalizes(packet: Packet)
    ensures Validate(packet).Ok? <==> 0 < |packet.surfaces| <= MAX_SURFACES
    ensures Validate(packet).Ok? ==> ValidPacket(Validate(packet).value)
    ensures ValidPacket(packet) <==> Validate(packet) == Ok(packet)
  {
    var surfaces := NormalizeAll(packet.surfaces);
    LinksNormalized(surfaces, Take(packet.links, MAX_SURFACES * 8));
    assert forall s :: s in surfaces ==> ValidSurface(s);
    if ValidPacket(packet) {
      assert forall i :: 0 <= i < |surfaces| ==> packet.surfaces[i] in packet.surfaces;
      assert surfaces == packet.surfaces;
      NormalLinksKept(surfaces, packet.links);
    }
  }

  /** `y` is the number in [0, 1] nearest to `x`. */
  predicate Nearest(x: real, y: real) {
    0.0 <= y <= 1.0 && (x < 0.0 ==> y == 0.0) && (x > 1.0 ==> y == 1.0) && (0.0 <= x <= 1.0 ==> y == x)
  }

  /** A surface with its six numbers brought into range. */
  predicate Fitted(s: Surface, t: Surface) {
    && t.id == s.id && Nearest(s.criticality, t.criticality) && Nearest(s.exposure, t.exposure)
    && Nearest(s.controlStrength, t.controlStrength) && Nearest(s.humanPressure, t.humanPressure)
    && Nearest(s.telemetryConfidence, t.telemetryConfidence) && t.signals == Min(64, s.signals)
  }

  predicate FittedLink(l: Link, k: Link) {
    k.source == l.source && k.target == l.target && Nearest(l.trust, k.trust) && Nearest(l.control, k.control)
  }

  /** A link survives when it joins two different surfaces of the packet. */
  predicate Joins(surfaces: seq<Surface>, l: Link) {
    l.source != l.target && Known(surfaces, l.source) && Known(surfaces, l.target)
  }

  ghost predicate FittedFrom(surfaces: seq<Surface>, links: seq<Link>, k: Link) {
    exists l :: l in links && Joins(surfaces, l) && FittedLink(l, k)
  }

  /** Validation clamps every surface in place, and its links are those of the first 8192 that
      join two different surfaces, clamped. */
  lemma ValidateClamps(packet: Packet)
    requires Validate(packet).Ok?
    ensures var v := Validate(packet).value;
      && |v.surfaces| == |packet.surfaces|
      && (forall i :: 0 <= i < |v.surfaces| ==> Fitted(packet.surfaces[i], v.surfaces[i]))
      && forall k :: k in v.links <==> FittedFrom(packet.surfaces, packet.links[..Min(8192, |packet.links|)], k)
  {
    var surfaces := NormalizeAll(packet.surfaces);
    SameKnown(packet.surfaces);
    LinksFitted(packet.surfaces, Take(packet.links, 8192));
    assert Take(packet.links, 8192) == packet.links[..Min(8192, |packet.links|)];
  }

  lemma SameKnown(surfaces: seq<Surface>)
    ensures forall id :: Known(NormalizeAll(surfaces), id) <==> Known(surfaces, id)
  {
    var normal := NormalizeAll(surfaces);
    forall id
      ensures Known(normal, id) <==> Known(surfaces, id)
    {
      if Known(normal, id) {
        var i :| 0 <= i < |normal| && normal[i].id == id;
        assert surfaces[i] in surfaces;
      }
      if Known(surfaces, id) {
        var i :| 0 <= i < |surfaces| && surfaces[i].id == id;
        assert normal[i] in normal;
      }
    }
  }

  lemma {:induction false} LinksFitted(surfaces: seq<Surface>, links: seq<Link>)
    requires forall id :: Known(NormalizeAll(surfaces), id) <==> Known(surfaces, id)
    ensures forall k :: k in NormalizeLinks(NormalizeAll(surfaces), links) <==> FittedFrom(surfaces, links, k)
  {
    if links != [] {
      var front, l := links[..|links| - 1], links[|links| - 1];
      assert links == front + [l];
      LinksFitted(surfaces, front);
      forall k
        ensures FittedFrom(surfaces, links, k) <==>
          FittedFrom(surfaces, front, k) || (Joins(surfaces, l) && FittedLink(l, k))
      {
        assert l in links;
      }
    }
  }

  // ---- _simulate ----

  datatype Row = Row(id: string, probability: real, impact: real)

  /** Without local model opinions the bias term is zero. */
  function Logit(s: Surface): real {
    -2.20 + s.exposure * 2.05 + s.criticality * 0.95 + s.humanPressure * 0.72
    + RMin(1.0, s.signals as real / 12.0) * 0.40 - s.controlStrength * 1.75 + (1.0 - s.telemetryConfidence) * 0.48
  }

  function Impact(s: Surface): real { Clamp(s.criticality * 0.78 + s.exposure * 0.15 + s.humanPressure * 0.07) }

  function RowOf(sigmoid: real -> real, s: Surface): Row { Row(s.id, sigmoid(Logit(s)), Impact(s)) }

  function Rows(sigmoid: real -> real, surfaces: seq<Surface>): seq<Row> {
    seq(|surfaces|, i requires 0 <= i < |surfaces| => RowOf(sigmoid, surfaces[i]))
  }

  /** Position of the row kept for an identifier, or the length. */
  function Position(rows: seq<Row>, id: string): nat {
    if rows == [] then 0 else if rows[0].id == id then 0 else 1 + Position(rows[1..], id)
  }

  /** The dictionary `by_id`: first position, last value. */
  function ById(rows: seq<Row>): seq<Row> {
    if rows == [] then []
    else Store(ById(rows[..|rows| - 1]), rows[|rows| - 1])
  }

  function Store(kept: seq<Row>, row: Row): seq<Row> {
    var at := Position(kept, row.id);
    if at < |kept| then kept[at := row] else kept + [row]
  }

  function PressuresOf(rows: seq<Row>): Pressures {
    if rows == [] then map[] else PressuresOf(rows[..|rows| - 1])[rows[|rows| - 1].id := rows[|rows| - 1].probability]
  }

  /** The rows after propagation; without links the list comes back as it was. */
  function Propagated(rows: seq<Row>, links: seq<Link>): seq<Row> {
    if links == [] then rows
    else
      var kept := ById(rows);
      var final := Rounds(PressuresOf(kept), links, 3);
      seq(|kept|, i requires 0 <= i < |kept| =>
        if kept[i].id in final then kept[i].(probability := final[kept[i].id]) else kept[i])
  }

  datatype Finding = Finding(id: string, risk: real)

  function FindingOf(r: Row): Finding { Finding(r.id, Clamp(r.probability * r.impact)) }

  function Findings(rows: seq<Row>): seq<Finding> {
    seq(|rows|, i requires 0 <= i < |rows| => FindingOf(rows[i]))
  }

  predicate Riskier(a: Finding, b: Finding) { a.risk >= b.risk }

  /** `findings.sort(key=..., reverse=True)`, which keeps the order of equals. */
  function SortByRisk(findings: seq<Finding>): seq<Finding> { SortBy(Riskier, findings) }

  function SumRisk(findings: seq<Finding>): real {
    if findings == [] then 0.0 else SumRisk(findings[..|findings| - 1]) + findings[|findings| - 1].risk
  }

  function MeanRisk(top: seq<Finding>): real {
    if top == [] then 0.0 else SumRisk(top) / |top| as real
  }

  datatype Outcome = Outcome(overallRisk: real, findings: seq<Finding>)

  function Simulated(sigmoid: real -> real, surfaces: seq<Surface>, links: seq<Link>): Outcome {
    var findings := SortByRisk(Findings(Propagated(Rows(sigmoid, surfaces), links)));
    Outcome(Clamp(MeanRisk(Take(findings, TOP))), findings)
  }

  // ---- the ranking ----

  ghost predicate Descending(s: seq<Finding>) { forall i, j :: 0 <= i < j < |s| ==> s[i].risk >= s[j].risk }

  /** The findings reported are all the findings, most risky first. */
  lemma SortSorts(findings: seq<Finding>)
    ensures Descending(SortByRisk(findings)) && multiset(SortByRisk(findings)) == multiset(findings)
    ensures |SortByRisk(findings)| == |findings|
  {
    SortBySorts(Riskier, findings);
    SameMembers(SortByRisk(findings), findings);
    assert SortedBy(Riskier, SortByRisk(findings));
  }
}
