/** Trust-pressure propagation: three synchronous noisy-or rounds over the link graph. */
module Propagation {
  import opened Prelude

  datatype Link = Link(source: string, target: string, trust: real, control: real)

  type Pressures = map<string, real>

  predicate UnitInterval(x: real) { 0.0 <= x <= 1.0 }

  predicate ValidLink(l: Link) { UnitInterval(l.trust) && UnitInterval(l.control) }

  ghost predicate ValidLinks(links: seq<Link>) { forall l :: l in links ==> ValidLink(l) }

  ghost predicate ValidPressures(p: Pressures) { forall id :: id in p ==> UnitInterval(p[id]) }

  /** A link whose ends are both known surfaces; any other is skipped. */
  predicate Connects(p: Pressures, l: Link, target: string) {
    l.target == target && l.source in p && l.target in p
  }

  function Flow(p: Pressures, l: Link, round: nat): real
    requires l.source in p
  {
    p[l.source] * l.trust * (1.0 - l.control) * (0.26 / (round + 1) as real)
  }

  /** What the links push into one surface, all read before any surface changes. */
  function Increment(p: Pressures, links: seq<Link>, round: nat, target: string): real {
    if links == [] then 0.0
    else
      var l := links[|links| - 1];
      Increment(p, links[..|links| - 1], round, target) + if Connects(p, l, target) then Flow(p, l, round) else 0.0
  }

  predicate Touched(p: Pressures, links: seq<Link>, target: string) {
    exists l :: l in links && Connects(p, l, target)
  }

  /** Noisy-or of a pressure with its increment; increments can exceed one. */
  function Raise(pressure: real, increment: real): real { Clamp(1.0 - (1.0 - pressure) * (1.0 - increment)) }

  function Round(p: Pressures, links: seq<Link>, round: nat): Pressures {
    map id | id in p :: if Touched(p, links, id) then Raise(p[id], Increment(p, links, round, id)) else p[id]
  }

  function Rounds(p: Pressures, links: seq<Link>, n: nat): Pressures {
    if n == 0 then p else Round(Rounds(p, links, n - 1), links, n - 1)
  }

  /** `_propagate_graph`, as far as the pressures go. */
  method PropagateGraph(p: Pressures, links: seq<Link>) returns (r: Pressures)
    ensures r == Rounds(p, links, 3)
  {
    r := p;
    for round := 0 to 3
      invariant r == Rounds(p, links, round)
    {
      var increments := Collect(r, links, round);
      r := Apply(r, links, round, increments);
    }
  }

  method Collect(p: Pressures, links: seq<Link>, round: nat) returns (increments: map<string, real>)
    ensures forall id :: id in increments <==> Touched(p, links, id)
    ensures forall id :: id in increments ==> increments[id] == Increment(p, links, round, id)
  {
    increments := map[];
    for i := 0 to |links|
      invariant forall id :: id in increments <==> Touched(p, links[..i], id)
      invariant forall id :: id in increments ==> increments[id] == Increment(p, links[..i], round, id)
    {
      var l := links[i];
      assert links[..i + 1] == links[..i] + [l];
      NextLink(p, links[..i], l, round);
      if l.source in p && l.target in p {
        var sofar := if l.target in increments then increments[l.target] else 0.0;
        increments := increments[l.target := sofar + Flow(p, l, round)];
      }
    }
    assert links[..|links|] == links;
  }

  lemma NextLink(p: Pressures, links: seq<Link>, l: Link, round: nat)
    ensures forall id :: Touched(p, links + [l], id) <==> Touched(p, links, id) || Connects(p, l, id)
    ensures forall id :: Increment(p, links + [l], round, id)
                      == Increment(p, links, round, id) + (if Connects(p, l, id) then Flow(p, l, round) else 0.0)
    ensures forall id :: !Touched(p, links, id) ==> Increment(p, links, round, id) == 0.0
  {
    assert (links + [l])[..|links|] == links;
    forall id | !Touched(p, links, id)
      ensures Increment(p, links, round, id) == 0.0
    {
      Untouched(p, links, round, id);
    }
  }

  lemma {:induction false} Untouched(p: Pressures, links: seq<Link>, round: nat, id: string)
    requires !Touched(p, links, id)
    ensures Increment(p, links, round, id) == 0.0
  {
    if links != [] {
      var front, l := links[..|links| - 1], links[|links| - 1];
      assert l in links && forall k :: k in front ==> k in links;
      Untouched(p, front, round, id);
    }
  }

  method Apply(p: Pressures, links: seq<Link>, round: nat, increments: map<string, real>) returns (r: Pressures)
    requires forall id :: id in increments <==> Touched(p, links, id)
    requires forall id :: id in increments ==> increments[id] == Increment(p, links, round, id)
    ensures r == Round(p, links, round)
  {
    r := p;
    var rest := increments.Keys;
    while rest != {}
      invariant rest <= increments.Keys && r.Keys == p.Keys
      invariant forall id :: id in p ==>
        r[id] == if id in increments && id !in rest then Raise(p[id], increments[id]) else p[id]
      decreases rest
    {
      var id :| id in rest;
      assert id in p;
      r := r[id := Raise(r[id], increments[id])];
      rest := rest - {id};
    }
  }

  lemma Product(a: real, b: real, c: real, d: real)
    requires 0.0 <= a <= b && 0.0 <= c <= d
    ensures 0.0 <= a * c <= b * d
  {
    assert a * c <= b * c <= b * d;
  }

  /** The clamp is what makes noisy-or monotone once an increment exceeds one. */
  lemma RaiseMonotone(pressure: real, increment: real, pressure': real, increment': real)
    requires UnitInterval(pressure) && UnitInterval(pressure') && pressure <= pressure'
    requires 0.0 <= increment <= increment'
    ensures pressure <= Raise(pressure, increment) <= Raise(pressure', increment') <= 1.0
  {
    if increment' < 1.0 {
      Product(1.0 - pressure', 1.0 - pressure, 1.0 - increment', 1.0 - increment);
      Product(0.0, 1.0 - pressure, 0.0, 1.0 - increment);
      Product(1.0 - pressure, 1.0 - pressure, 1.0 - increment, 1.0);
    } else {
      Product(0.0, 1.0 - pressure', 0.0, increment' - 1.0);
      assert (1.0 - pressure') * (1.0 - increment') == -((1.0 - pressure') * (increment' - 1.0));
      if increment < 1.0 {
        Product(1.0 - pressure, 1.0 - pressure, 1.0 - increment, 1.0);
      } else {
        Product(0.0, 1.0 - pressure, 0.0, increment - 1.0);
        assert (1.0 - pressure) * (1.0 - increment) == -((1.0 - pressure) * (increment - 1.0));
      }
    }
  }

  /** At least as much trust, at most as much control, on the same ends. */
  predicate Stronger(l: Link, l': Link) {
    l.source == l'.source && l.target == l'.target && l.trust <= l'.trust && l'.control <= l.control
  }

  ghost predicate AllStronger(links: seq<Link>, links': seq<Link>) {
    |links| == |links'| && forall i :: 0 <= i < |links| ==> Stronger(links[i], links'[i])
  }

  ghost predicate Below(p: Pressures, p': Pressures) {
    p.Keys == p'.Keys && forall id :: id in p ==> p[id] <= p'[id]
  }

  lemma FlowMonotone(p: Pressures, l: Link, p': Pressures, l': Link, round: nat)
    requires ValidPressures(p) && ValidPressures(p') && Below(p, p') && l.source in p
    requires ValidLink(l) && ValidLink(l') && Stronger(l, l')
    ensures 0.0 <= Flow(p, l, round) <= Flow(p', l', round)
  {
    var w := 0.26 / (round + 1) as real;
    Product(p[l.source], p'[l.source], l.trust, l'.trust);
    Product(p[l.source] * l.trust, p'[l.source] * l'.trust, 1.0 - l.control, 1.0 - l'.control);
    Product(p[l.source] * l.trust * (1.0 - l.control), p'[l.source] * l'.trust * (1.0 - l'.control), w, w);
  }

  lemma {:induction false} IncrementMonotone(p: Pressures, links: seq<Link>, p': Pressures, links': seq<Link>,
      round: nat, id: string)
    requires ValidPressures(p) && ValidPressures(p') && Below(p, p')
    requires ValidLinks(links) && ValidLinks(links') && AllStronger(links, links')
    ensures 0.0 <= Increment(p, links, round, id) <= Increment(p', links', round, id)
  {
    if links != [] {
      var n := |links| - 1;
      assert links[n] in links && links'[n] in links';
      IncrementMonotone(p, links[..n], p', links'[..n], round, id);
      if Connects(p, links[n], id) {
        FlowMonotone(p, links[n], p', links'[n], round);
      }
    }
  }

  lemma TouchedAlike(p: Pressures, links: seq<Link>, p': Pressures, links': seq<Link>, id: string)
    requires p.Keys == p'.Keys && AllStronger(links, links')
    ensures Touched(p, links, id) <==> Touched(p', links', id)
  {
    if Touched(p, links, id) {
      var l :| l in links && Connects(p, l, id);
      var i :| 0 <= i < |links| && links[i] == l;
      assert links'[i] in links' && Stronger(l, links'[i]);
    }
    if Touched(p', links', id) {
      var l :| l in links' && Connects(p', l, id);
      var i :| 0 <= i < |links'| && links'[i] == l;
      assert links[i] in links && Stronger(links[i], l);
    }
  }

  lemma RoundMonotone(p: Pressures, links: seq<Link>, p': Pressures, links': seq<Link>, round: nat)
    requires ValidPressures(p) && ValidPressures(p') && Below(p, p')
    requires ValidLinks(links) && ValidLinks(links') && AllStronger(links, links')
    ensures Below(Round(p, links, round), Round(p', links', round))
    ensures Below(p, Round(p, links, round)) && ValidPressures(Round(p, links, round))
    ensures ValidPressures(Round(p', links', round))
  {
    forall id | id in p
      ensures p[id] <= Round(p, links, round)[id] <= Round(p', links', round)[id] <= 1.0
    {
      TouchedAlike(p, links, p', links', id);
      IncrementMonotone(p, links, p', links', round, id);
      RaiseMonotone(p[id], Increment(p, links, round, id), p'[id], Increment(p', links', round, id));
    }
  }

  /** Pressures stay in [0, 1], never fall below the inputs, rise with every input pressure
      and every trust, and fall with every link control. */
  lemma {:induction false} RoundsMonotone(p: Pressures, links: seq<Link>, p': Pressures, links': seq<Link>, n: nat)
    requires ValidPressures(p) && ValidPressures(p') && Below(p, p')
    requires ValidLinks(links) && ValidLinks(links') && AllStronger(links, links')
    ensures Below(Rounds(p, links, n), Rounds(p', links', n))
    ensures Below(p, Rounds(p, links, n)) && ValidPressures(Rounds(p, links, n))
    ensures ValidPressures(Rounds(p', links', n))
  {
    if n > 0 {
      RoundsMonotone(p, links, p', links', n - 1);
      RoundMonotone(Rounds(p, links, n - 1), links, Rounds(p', links', n - 1), links', n - 1);
    }
  }
}
