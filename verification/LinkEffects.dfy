/** What links do to pressures and findings: which of them raise a risk at all, what a single
    one adds, and how the overall risk sums the ranking up. */
module LinkEffects {
  import opened Prelude
  import opened Propagation
  import opened Scanner
  import opened RiskFindings

  /** A link into the surface, from a known one, that trusts it and is not wholly controlled. */
  predicate Carries(p: Pressures, l: Link, id: string) {
    l.target == id && id in p && l.source in p && l.trust > 0.0 && l.control < 1.0
  }

  ghost predicate Fed(p: Pressures, links: seq<Link>, id: string) { exists l :: l in links && Carries(p, l, id) }

  ghost predicate Positive(p: Pressures) { forall id :: id in p ==> p[id] > 0.0 }

  lemma TimesPositive(a: real, b: real, x: real)
    requires 0.0 <= a && 0.0 <= b && x == a * b
    ensures 0.0 <= x && (x > 0.0 <==> a > 0.0 && b > 0.0)
  {
    if a > 0.0 && b > 0.0 {
      assert a * b > 0.0;
    } else if a == 0.0 {
      assert x == 0.0 * b;
    } else {
      assert x == a * 0.0;
    }
  }

  lemma FlowPositive(p: Pressures, l: Link, round: nat)
    requires ValidPressures(p) && Positive(p) && ValidLink(l) && l.source in p
    ensures Flow(p, l, round) >= 0.0 && (Flow(p, l, round) > 0.0 <==> l.trust > 0.0 && l.control < 1.0)
  {
    var w := 0.26 / (round + 1) as real;
    var a := p[l.source] * l.trust;
    var b := a * (1.0 - l.control);
    TimesPositive(p[l.source], l.trust, a);
    TimesPositive(a, 1.0 - l.control, b);
    TimesPositive(b, w, b * w);
  }

  lemma {:induction false} IncrementPositive(p: Pressures, links: seq<Link>, round: nat, id: string)
    requires ValidPressures(p) && Positive(p) && ValidLinks(links)
    ensures Increment(p, links, round, id) >= 0.0
    ensures id in p ==> (Increment(p, links, round, id) > 0.0 <==> Fed(p, links, id))
  {
    if links != [] {
      var front, l := links[..|links| - 1], links[|links| - 1];
      assert l in links && links == front + [l];
      IncrementPositive(p, front, round, id);
      if l.source in p {
        FlowPositive(p, l, round);
      }
      assert Fed(p, links, id) <==> Fed(p, front, id) || Carries(p, l, id);
    }
  }

  lemma RaiseStrict(pressure: real, increment: real)
    requires 0.0 <= pressure < 1.0 && increment >= 0.0
    ensures increment > 0.0 ==> Raise(pressure, increment) > pressure
    ensures increment == 0.0 ==> Raise(pressure, increment) == pressure
  {
    var kept := (1.0 - pressure) * (1.0 - increment);
    assert kept == (1.0 - pressure) - (1.0 - pressure) * increment;
    TimesPositive(1.0 - pressure, increment, (1.0 - pressure) * increment);
  }

  lemma {:induction false} UnfedStays(p: Pressures, links: seq<Link>, id: string, n: nat)
    requires ValidPressures(p) && Positive(p) && ValidLinks(links) && id in p && p[id] < 1.0 && !Fed(p, links, id)
    ensures id in Rounds(p, links, n) && Rounds(p, links, n)[id] == p[id]
  {
    if n > 0 {
      var q := Rounds(p, links, n - 1);
      UnfedStays(p, links, id, n - 1);
      RoundsMonotone(p, links, p, links, n - 1);
      StillPositive(p, q);
      IncrementPositive(q, links, n - 1, id);
      SameFed(p, q, links, id);
      RaiseStrict(q[id], Increment(q, links, n - 1, id));
    }
  }

  lemma StillPositive(p: Pressures, q: Pressures)
    requires Positive(p) && Below(p, q)
    ensures Positive(q)
  {
    forall id | id in q
      ensures q[id] > 0.0
    {
      assert id in p && p[id] <= q[id];
    }
  }

  lemma SameFed(p: Pressures, q: Pressures, links: seq<Link>, id: string)
    requires p.Keys == q.Keys
    ensures Fed(p, links, id) <==> Fed(q, links, id)
  {
    assert forall l :: Carries(p, l, id) <==> Carries(q, l, id);
  }

  lemma FedRises(p: Pressures, links: seq<Link>, id: string)
    requires ValidPressures(p) && Positive(p) && ValidLinks(links) && id in p && p[id] < 1.0 && Fed(p, links, id)
    ensures id in Rounds(p, links, 3) && Rounds(p, links, 3)[id] > p[id]
  {
    var one, two := Rounds(p, links, 1), Rounds(p, links, 2);
    assert Rounds(p, links, 0) == p && AllStronger(links, links);
    IncrementPositive(p, links, 0, id);
    RaiseStrict(p[id], Increment(p, links, 0, id));
    var l :| l in links && Carries(p, l, id);
    assert Touched(p, links, id);
    RoundMonotone(p, links, p, links, 0);
    RoundMonotone(one, links, one, links, 1);
    RoundMonotone(two, links, two, links, 2);
  }

  /** Three rounds raise a pressure exactly when some link feeds it. */
  lemma RaisedExactly(p: Pressures, links: seq<Link>, id: string)
    requires ValidPressures(p) && Positive(p) && ValidLinks(links) && id in p && p[id] < 1.0
    ensures id in Rounds(p, links, 3) && Rounds(p, links, 3)[id] >= p[id]
    ensures Rounds(p, links, 3)[id] > p[id] <==> Fed(p, links, id)
  {
    if Fed(p, links, id) {
      FedRises(p, links, id);
    } else {
      UnfedStays(p, links, id, 3);
    }
  }

  // ---- on the findings ----

  predicate IdsDistinct(surfaces: seq<Surface>) {
    forall i, j :: 0 <= i < j < |surfaces| ==> surfaces[i].id != surfaces[j].id
  }

  lemma StartsInside(sigmoid: real -> real, surfaces: seq<Surface>, base: Pressures)
    requires Sigmoid(sigmoid) && Starts(sigmoid, surfaces, base)
    ensures ValidPressures(base) && Positive(base) && forall id :: id in base ==> base[id] < 1.0
  {
    forall id | id in base
      ensures 0.0 < base[id] < 1.0
    {
      var i := LastOf(surfaces, id);
    }
  }

  lemma WeighedStrict(chance: real, chance': real, impact: real, x: real, y: real)
    requires 0.0 <= chance <= chance' <= 1.0 && 0.0 <= impact <= 1.0 && x == chance * impact && y == chance' * impact
    ensures Clamp(x) <= Clamp(y) && (Clamp(x) < Clamp(y) <==> chance < chance' && impact > 0.0)
  {
    TimesPositive(chance' - chance, impact, (chance' - chance) * impact);
    assert y - x == (chance' - chance) * impact;
    Product(chance', 1.0, impact, 1.0);
    TimesPositive(chance, impact, x);
  }

  /** The finding a surface has under a pressure. */
  function Under(s: Surface, p: Pressures): Finding
    requires s.id in p
  {
    Weighed(s.id, p[s.id], Impact(s))
  }

  lemma UnderStrict(s: Surface, p: Pressures, q: Pressures)
    requires s.id in p && s.id in q && 0.0 <= p[s.id] <= q[s.id] <= 1.0
    ensures Under(s, p).risk <= Under(s, q).risk
    ensures Under(s, p).risk < Under(s, q).risk <==> p[s.id] < q[s.id] && Impact(s) > 0.0
  {
    WeighedStrict(p[s.id], q[s.id], Impact(s), p[s.id] * Impact(s), q[s.id] * Impact(s));
  }

  lemma SpreadFinding(surfaces: seq<Surface>, links: seq<Link>, base: Pressures, findings: seq<Finding>, i: nat)
    requires FindingsSpread(surfaces, links, base, findings) && LastWith(surfaces, i)
    ensures surfaces[i].id in Rounds(base, links, 3)
    ensures Under(surfaces[i], Rounds(base, links, 3)) in findings
  {
  }

  lemma PressuresUp(base: Pressures, links: seq<Link>, id: string)
    requires ValidPressures(base) && Positive(base) && ValidLinks(links) && id in base && base[id] < 1.0
    ensures id in Rounds(base, links, 3) && 0.0 <= base[id] <= Rounds(base, links, 3)[id] <= 1.0
    ensures base[id] < Rounds(base, links, 3)[id] <==> Fed(base, links, id)
  {
    assert AllStronger(links, links) && Below(base, base);
    RoundsMonotone(base, links, base, links, 3);
    RaisedExactly(base, links, id);
  }

  /** With distinct identifiers, links change the finding of a surface exactly when one of them
      feeds it and its impact is positive, and then they raise it. */
  lemma LinksRaiseFindings(sigmoid: real -> real, surfaces: seq<Surface>, links: seq<Link>, base: Pressures, i: nat)
      returns (alone: real, linked: real)
    requires Sigmoid(sigmoid) && IdsDistinct(surfaces) && Starts(sigmoid, surfaces, base)
    requires links != [] && ValidLinks(links) && i < |surfaces|
    ensures Finding(surfaces[i].id, alone) in Simulated(sigmoid, surfaces, []).findings
    ensures Finding(surfaces[i].id, linked) in Simulated(sigmoid, surfaces, links).findings
    ensures alone <= linked && (alone < linked <==> Fed(base, links, surfaces[i].id) && Impact(surfaces[i]) > 0.0)
  {
    var s, final := surfaces[i], Rounds(base, links, 3);
    assert LastWith(surfaces, i);
    FindingsAlone(sigmoid, surfaces);
    AloneIsThere(sigmoid, surfaces, i);
    FindingsFollowRounds(sigmoid, surfaces, links, base);
    SpreadFinding(surfaces, links, base, Simulated(sigmoid, surfaces, links).findings, i);
    StartsInside(sigmoid, surfaces, base);
    PressuresUp(base, links, s.id);
    UnderStrict(s, base, final);
    alone, linked := Under(s, base).risk, Under(s, final).risk;
  }

  lemma AloneIsThere(sigmoid: real -> real, surfaces: seq<Surface>, i: nat)
    requires i < |surfaces|
    requires multiset(Simulated(sigmoid, surfaces, []).findings) == multiset(AllAlone(sigmoid, surfaces))
    ensures Alone(sigmoid, surfaces[i]) in Simulated(sigmoid, surfaces, []).findings
  {
    assert AllAlone(sigmoid, surfaces)[i] in multiset(AllAlone(sigmoid, surfaces));
  }

  // ---- one link ----

  /** What one link sends in the first round; later rounds send a half and a third of it. */
  function Sent(p: Pressures, l: Link): real
    requires l.source in p
  {
    p[l.source] * l.trust * (1.0 - l.control) * 0.26
  }

  lemma FlowShrinks(p: Pressures, q: Pressures, l: Link)
    requires l.source in p && l.source in q && p[l.source] == q[l.source]
    ensures Flow(q, l, 0) == Sent(p, l) && Flow(q, l, 1) == Sent(p, l) / 2.0 && Flow(q, l, 2) == Sent(p, l) / 3.0
  {
    var a := p[l.source] * l.trust * (1.0 - l.control);
    assert Flow(q, l, 0) == a * (0.26 / 1.0) && Flow(q, l, 1) == a * (0.26 / 2.0) && Flow(q, l, 2) == a * (0.26 / 3.0);
  }

  lemma OneLinkRound(p: Pressures, l: Link, round: nat)
    requires l.source in p && l.target in p && l.source != l.target
    ensures Round(p, [l], round) == p[l.target := Raise(p[l.target], Flow(p, l, round))]
  {
    assert [l][..0] == [] && Increment(p, [], round, l.target) == 0.0;
    assert l in [l] && Connects(p, l, l.target) && Touched(p, [l], l.target);
    forall id | id in p && id != l.target
      ensures !Touched(p, [l], id)
    {
    }
    assert Increment(p, [l], round, l.target) == Flow(p, l, round);
  }

  lemma RaiseMisses(pressure: real, increment: real, left: real)
    requires UnitInterval(pressure) && UnitInterval(increment) && left == (1.0 - pressure) * (1.0 - increment)
    ensures Raise(pressure, increment) == 1.0 - left && 0.0 <= left <= 1.0
  {
    Product(0.0, 1.0 - pressure, 0.0, 1.0 - increment);
    Product(1.0 - pressure, 1.0, 1.0 - increment, 1.0);
  }

  lemma SentInUnit(p: Pressures, l: Link)
    requires ValidPressures(p) && ValidLink(l) && l.source in p
    ensures 0.0 <= Sent(p, l) <= 0.26
  {
    Product(0.0, p[l.source], 0.0, l.trust);
    Product(p[l.source], 1.0, l.trust, 1.0);
    Product(p[l.source] * l.trust, 1.0, 1.0 - l.control, 1.0);
  }

  /** One round over one link, when the target has the chance `miss` to stay clear. */
  lemma OneLinkStep(p: Pressures, l: Link, round: nat, miss: real, x: real, left: real)
    requires l.source in p && l.target in p && l.source != l.target
    requires Flow(p[l.target := 1.0 - miss], l, round) == x
    requires UnitInterval(miss) && UnitInterval(x) && left == miss * (1.0 - x)
    ensures Round(p[l.target := 1.0 - miss], [l], round) == p[l.target := 1.0 - left] && UnitInterval(left)
  {
    OneLinkRound(p[l.target := 1.0 - miss], l, round);
    RaiseMisses(1.0 - miss, x, left);
  }

  lemma OneLinkSent(p: Pressures, l: Link, round: nat, miss: real, x: real, left: real)
    requires l.source in p && l.target in p && l.source != l.target && round < 3
    requires UnitInterval(miss) && UnitInterval(x) && left == miss * (1.0 - x)
    requires x == if round == 0 then Sent(p, l) else if round == 1 then Sent(p, l) / 2.0 else Sent(p, l) / 3.0
    ensures Round(p[l.target := 1.0 - miss], [l], round) == p[l.target := 1.0 - left] && UnitInterval(left)
  {
    FlowShrinks(p, p[l.target := 1.0 - miss], l);
    OneLinkStep(p, l, round, miss, x, left);
  }

  /** The chance to stay clear under three independent attempts. */
  function Clear(miss: real, x: real): real { miss * (1.0 - x) * (1.0 - x / 2.0) * (1.0 - x / 3.0) }

  /** One link between two surfaces leaves of the target's chance to stay clear what three
      independent attempts would, of full, half and third strength; nothing else changes. */
  lemma OneLink(p: Pressures, l: Link)
    requires ValidPressures(p) && ValidLink(l) && l.source in p && l.target in p && l.source != l.target
    ensures Rounds(p, [l], 3) == p[l.target := 1.0 - Clear(1.0 - p[l.target], Sent(p, l))]
  {
    SentInUnit(p, l);
    var miss := 1.0 - p[l.target];
    var a, b, c := Attempts(p, l, miss, Sent(p, l));
    assert p[l.target := 1.0 - miss] == p;
    ThreeRounds(p, [l]);
  }

  lemma Attempts(p: Pressures, l: Link, miss: real, x: real) returns (a: real, b: real, c: real)
    requires l.source in p && l.target in p && l.source != l.target
    requires UnitInterval(miss) && 0.0 <= x <= 0.26 && x == Sent(p, l)
    ensures c == Clear(miss, x)
    ensures Round(p[l.target := 1.0 - miss], [l], 0) == p[l.target := 1.0 - a]
    ensures Round(p[l.target := 1.0 - a], [l], 1) == p[l.target := 1.0 - b]
    ensures Round(p[l.target := 1.0 - b], [l], 2) == p[l.target := 1.0 - c]
  {
    a := miss * (1.0 - x);
    OneLinkSent(p, l, 0, miss, x, a);
    b := a * (1.0 - x / 2.0);
    OneLinkSent(p, l, 1, a, x / 2.0, b);
    c := b * (1.0 - x / 3.0);
    OneLinkSent(p, l, 2, b, x / 3.0, c);
  }

  lemma ThreeRounds(p: Pressures, links: seq<Link>)
    ensures Rounds(p, links, 3) == Round(Round(Round(p, links, 0), links, 1), links, 2)
  {
    assert Rounds(p, links, 0) == p;
    assert Rounds(p, links, 1) == Round(p, links, 0);
    assert Rounds(p, links, 2) == Round(Rounds(p, links, 1), links, 1);
  }

  // ---- the overall risk ----

  /** A sum from the front. */
  function Sum(risks: seq<real>): real { if risks == [] then 0.0 else risks[0] + Sum(risks[1..]) }

  function RisksOf(findings: seq<Finding>): seq<real> {
    seq(|findings|, i requires 0 <= i < |findings| => findings[i].risk)
  }

  lemma {:induction false} SumOfBoth(a: seq<real>, b: seq<real>)
    ensures Sum(a + b) == Sum(a) + Sum(b)
  {
    if a == [] {
      assert a + b == b;
    } else {
      assert (a + b)[1..] == a[1..] + b;
      SumOfBoth(a[1..], b);
    }
  }

  lemma {:induction false} SumsAgree(findings: seq<Finding>)
    requires forall f :: f in findings ==> UnitInterval(f.risk)
    ensures SumRisk(findings) == Sum(RisksOf(findings)) && 0.0 <= SumRisk(findings) <= |findings| as real
  {
    if findings != [] {
      var front, last := findings[..|findings| - 1], findings[|findings| - 1];
      assert last in findings && forall f :: f in front ==> f in findings;
      SumsAgree(front);
      assert RisksOf(findings) == RisksOf(front) + [last.risk];
      SumOfBoth(RisksOf(front), [last.risk]);
      assert Sum([last.risk]) == last.risk + Sum([]);
    }
  }

  lemma RisksInUnit(sigmoid: real -> real, surfaces: seq<Surface>, links: seq<Link>)
    ensures forall f :: f in Simulated(sigmoid, surfaces, links).findings ==> UnitInterval(f.risk)
  {
    var rows := Propagated(Rows(sigmoid, surfaces), links);
    SortedMembers(Findings(rows));
    forall f | f in Findings(rows)
      ensures UnitInterval(f.risk)
    {
      var k :| 0 <= k < |Findings(rows)| && Findings(rows)[k] == f;
    }
  }

  predicate Falling(findings: seq<Finding>) {
    forall i, j :: 0 <= i < j < |findings| ==> findings[i].risk >= findings[j].risk
  }

  /** `overall` is the mean of the first twelve risks, or of all when there are fewer. */
  predicate IsMean(overall: real, findings: seq<Finding>) {
    var n := Min(12, |findings|);
    overall * n as real == Sum(RisksOf(findings[..n]))
  }

  /** The overall risk is the mean of the twelve largest risks, or of all when there are fewer;
      its clamp cuts nothing. */
  lemma OverallIsMean(sigmoid: real -> real, surfaces: seq<Surface>, links: seq<Link>)
    ensures Falling(Simulated(sigmoid, surfaces, links).findings)
    ensures IsMean(Simulated(sigmoid, surfaces, links).overallRisk, Simulated(sigmoid, surfaces, links).findings)
  {
    RisksInUnit(sigmoid, surfaces, links);
    var mean := MeanOfTop(Simulated(sigmoid, surfaces, links).findings);
    SortSorts(Findings(Propagated(Rows(sigmoid, surfaces), links)));
  }

  lemma MeanOfTop(findings: seq<Finding>) returns (mean: real)
    requires forall f :: f in findings ==> UnitInterval(f.risk)
    ensures mean == Clamp(MeanRisk(Take(findings, TOP))) && IsMean(mean, findings)
  {
    var n := Min(12, |findings|);
    var top := findings[..n];
    mean := Clamp(MeanRisk(Take(findings, TOP)));
    assert Take(findings, TOP) == top;
    assert forall f :: f in top ==> f in findings;
    MeanTimes(top, n);
  }

  lemma MeanTimes(top: seq<Finding>, n: nat)
    requires n == |top| && forall f :: f in top ==> UnitInterval(f.risk)
    ensures Clamp(MeanRisk(top)) * n as real == Sum(RisksOf(top))
  {
    SumsAgree(top);
    MeanIs(top, n, Sum(RisksOf(top)));
  }

  lemma MeanIs(top: seq<Finding>, n: nat, sum: real)
    requires n == |top| && sum == SumRisk(top) && 0.0 <= sum <= n as real
    ensures Clamp(MeanRisk(top)) * n as real == sum
  {
    if n > 0 {
      Quotient(sum, n as real);
    }
  }

  lemma Quotient(part: real, whole: real)
    requires 0.0 <= part <= whole && whole > 0.0
    ensures 0.0 <= part / whole <= 1.0 && part / whole * whole == part
  {
  }
}
