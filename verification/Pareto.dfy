/** The Pareto frontier of control candidates. */
module Pareto {
  import opened Prelude
  import opened Sorting
  import opened Scanner
  import opened Controls
  import opened ControlOffers

  const FRONTIER_LIMIT := 24

  predicate Dominates(a: Candidate, b: Candidate) {
    && a.cost <= b.cost && a.reduction >= b.reduction
    && (a.cost < b.cost || a.reduction > b.reduction)
  }

  predicate Dominated(c: Candidate, all: seq<Candidate>) { exists o :: o in all && Dominates(o, c) }

  /** The two sort keys; ties keep their order. */
  predicate ByReduction(a: Candidate, b: Candidate) {
    a.reduction > b.reduction || (a.reduction == b.reduction && a.cost <= b.cost)
  }

  predicate ByCost(a: Candidate, b: Candidate) { a.cost <= b.cost }

  function NonDominated(s: seq<Candidate>, all: seq<Candidate>): seq<Candidate> {
    if s == [] then []
    else
      var front, c := NonDominated(s[..|s| - 1], all), s[|s| - 1];
      if Dominated(c, all) then front else front + [c]
  }

  /** The frontier before it is cut. */
  function Frontier(candidates: seq<Candidate>): seq<Candidate> {
    var ranked := SortBy(ByReduction, candidates);
    SortBy(ByCost, NonDominated(ranked, ranked))
  }

  /** `_candidate_controls`. */
  method CandidateControls(sigmoid: real -> real, packet: Packet, hotspots: seq<string>, costs: Costs, baseline: real)
      returns (frontier: seq<Candidate>)
    ensures frontier == Take(Frontier(Candidates(sigmoid, packet, hotspots, costs, baseline)), FRONTIER_LIMIT)
    ensures forall c :: c in frontier ==> Genuine(sigmoid, packet, hotspots, costs, baseline, c)
  {
    var candidates: seq<Candidate> := [];
    for i := 0 to |hotspots|
      invariant candidates == Candidates(sigmoid, packet, hotspots[..i], costs, baseline)
    {
      assert hotspots[..i + 1][..i] == hotspots[..i];
      var at := Find(packet.surfaces, hotspots[i]);
      if at < |packet.surfaces| {
        var offered := TryActions(sigmoid, packet, at, costs, baseline);
        candidates := candidates + offered;
      }
    }
    assert hotspots[..|hotspots|] == hotspots;
    candidates := SortBy(ByReduction, candidates);
    frontier := KeepNonDominated(candidates);
    frontier := Take(SortBy(ByCost, frontier), FRONTIER_LIMIT);
    FrontierIsGenuine(sigmoid, packet, hotspots, costs, baseline);
  }

  /** What is reported are real candidates. */
  lemma FrontierIsGenuine(sigmoid: real -> real, packet: Packet, hotspots: seq<string>, costs: Costs, baseline: real)
    ensures forall c :: c in Frontier(Candidates(sigmoid, packet, hotspots, costs, baseline)) ==>
        Genuine(sigmoid, packet, hotspots, costs, baseline, c)
  {
    var all := Candidates(sigmoid, packet, hotspots, costs, baseline);
    forall c | c in Frontier(all)
      ensures Genuine(sigmoid, packet, hotspots, costs, baseline, c)
    {
      OnFrontier(all, c);
      CandidatesAreGenuine(sigmoid, packet, hotspots, costs, baseline, c);
    }
  }

  lemma {:induction false} CountedIsThere(candidates: seq<Candidate>, id: string, f: Field) returns (c: Candidate)
    requires CountFor(candidates, id, f) > 0
    ensures c in candidates && c.surfaceId == id && c.field == f
  {
    var front, last := candidates[..|candidates| - 1], candidates[|candidates| - 1];
    if last.surfaceId == id && last.field == f {
      c := last;
    } else {
      c := CountedIsThere(front, id, f);
    }
  }

  /** For every listed surface and every field of it that moves, the frontier has that option or
      one that costs no more, reduces no less, and is better in one of the two. */
  lemma EveryMoveIsAnswered(sigmoid: real -> real, packet: Packet, hotspots: seq<string>, costs: Costs,
      baseline: real, id: string, f: Field)
      returns (c: Candidate, k: Candidate)
    requires |packet.surfaces| <= MAX_SURFACES && id in hotspots && Movable(packet, id, f)
    ensures c.surfaceId == id && c.field == f && Genuine(sigmoid, packet, hotspots, costs, baseline, c)
    ensures k in Frontier(Candidates(sigmoid, packet, hotspots, costs, baseline))
    ensures k == c || (k.cost <= c.cost && k.reduction >= c.reduction && (k.cost < c.cost || k.reduction > c.reduction))
  {
    var all := Candidates(sigmoid, packet, hotspots, costs, baseline);
    EveryMoveIsOffered(sigmoid, packet, hotspots, costs, baseline, id, f);
    assert id in multiset(hotspots);
    c := CountedIsThere(all, id, f);
    CandidatesAreGenuine(sigmoid, packet, hotspots, costs, baseline, c);
    if Dominated(c, all) {
      k := DroppedHasKeptDominator(all, c);
    } else {
      k := c;
      FrontierExact(all, c);
      assert c in multiset(all) && c in multiset(Frontier(all));
    }
  }

  method TryActions(sigmoid: real -> real, packet: Packet, at: nat, costs: Costs, baseline: real)
      returns (offered: seq<Candidate>)
    requires at < |packet.surfaces|
    ensures offered == OfferedBy(sigmoid, packet, at, ACTIONS, costs, baseline)
  {
    offered := [];
    for i := 0 to |ACTIONS|
      invariant offered == OfferedBy(sigmoid, packet, at, ACTIONS[..i], costs, baseline)
    {
      assert ACTIONS[..i + 1][..i] == ACTIONS[..i];
      offered := offered + Offered(sigmoid, packet, at, ACTIONS[i], costs, baseline);
    }
    assert ACTIONS[..|ACTIONS|] == ACTIONS;
  }

  method KeepNonDominated(candidates: seq<Candidate>) returns (frontier: seq<Candidate>)
    ensures frontier == NonDominated(candidates, candidates)
  {
    frontier := [];
    for i := 0 to |candidates|
      invariant frontier == NonDominated(candidates[..i], candidates)
    {
      assert candidates[..i + 1][..i] == candidates[..i];
      var dominated := AnyDominates(candidates, candidates[i]);
      if !dominated {
        frontier := frontier + [candidates[i]];
      }
    }
    assert candidates[..|candidates|] == candidates;
  }

  method AnyDominates(others: seq<Candidate>, c: Candidate) returns (dominated: bool)
    ensures dominated <==> Dominated(c, others)
  {
    for i := 0 to |others|
      invariant forall j :: 0 <= j < i ==> !Dominates(others[j], c)
    {
      if Dominates(others[i], c) {
        return true;
      }
    }
    dominated := false;
  }

  // ---- what the frontier is ----

  lemma {:induction false} FilterCounts(s: seq<Candidate>, all: seq<Candidate>, c: Candidate)
    ensures multiset(NonDominated(s, all))[c] == if Dominated(c, all) then 0 else multiset(s)[c]
  {
    if s != [] {
      FilterCounts(s[..|s| - 1], all, c);
      assert s == s[..|s| - 1] + [s[|s| - 1]];
    }
  }

  /** The frontier is exactly the candidates nothing dominates, each as often as it was offered. */
  lemma FrontierExact(candidates: seq<Candidate>, c: Candidate)
    ensures multiset(Frontier(candidates))[c] == if Dominated(c, candidates) then 0 else multiset(candidates)[c]
  {
    var ranked := SortBy(ByReduction, candidates);
    SortBySorts(ByReduction, candidates);
    SameMembers(ranked, candidates);
    FilterCounts(ranked, ranked, c);
    SortBySorts(ByCost, NonDominated(ranked, ranked));
    SameMembers(Frontier(candidates), NonDominated(ranked, ranked));
  }

  lemma {:induction false} FilterShortens(s: seq<Candidate>, all: seq<Candidate>)
    ensures |NonDominated(s, all)| <= |s|
  {
    if s != [] {
      FilterShortens(s[..|s| - 1], all);
    }
  }

  lemma FrontierNoLonger(candidates: seq<Candidate>)
    ensures |Frontier(candidates)| <= |candidates|
  {
    var ranked := SortBy(ByReduction, candidates);
    SortBySorts(ByReduction, candidates);
    SameMembers(ranked, candidates);
    FilterShortens(ranked, ranked);
    SortBySorts(ByCost, NonDominated(ranked, ranked));
    SameMembers(Frontier(candidates), NonDominated(ranked, ranked));
  }

  function Dominators(c: Candidate, all: seq<Candidate>): set<Candidate> { set o | o in all && Dominates(o, c) }

  /** Every dropped candidate is dominated by a kept one: dominators run out. */
  lemma {:induction false} DroppedHasKeptDominator(candidates: seq<Candidate>, c: Candidate) returns (k: Candidate)
    requires c in candidates && Dominated(c, candidates)
    ensures k in Frontier(candidates) && Dominates(k, c)
    decreases |Dominators(c, candidates)|
  {
    var o :| o in candidates && Dominates(o, c);
    if Dominated(o, candidates) {
      assert o in Dominators(c, candidates) && o !in Dominators(o, candidates);
      assert Dominators(o, candidates) <= Dominators(c, candidates) - {o};
      SubsetSize(Dominators(o, candidates), Dominators(c, candidates) - {o});
      k := DroppedHasKeptDominator(candidates, o);
    } else {
      k := o;
      FrontierExact(candidates, o);
      assert o in multiset(candidates);
      assert o in multiset(Frontier(candidates));
    }
  }

  /** Along the frontier cost never falls, and it rises exactly where the reduction rises. */
  lemma FrontierTrades(candidates: seq<Candidate>, i: nat, j: nat)
    requires i < j < |Frontier(candidates)|
    ensures var f := Frontier(candidates);
      f[i].cost <= f[j].cost && (f[i].cost < f[j].cost <==> f[i].reduction < f[j].reduction)
  {
    var f := Frontier(candidates);
    var ranked := SortBy(ByReduction, candidates);
    SortBySorts(ByCost, NonDominated(ranked, ranked));
    assert ByCost(f[i], f[j]);
    OnFrontier(candidates, f[i]);
    OnFrontier(candidates, f[j]);
    assert !Dominates(f[i], f[j]) && !Dominates(f[j], f[i]);
  }

  lemma OnFrontier(candidates: seq<Candidate>, c: Candidate)
    requires c in Frontier(candidates)
    ensures c in candidates && !Dominated(c, candidates)
  {
    FrontierExact(candidates, c);
    assert c in multiset(Frontier(candidates));
    assert c in multiset(candidates);
  }

  /** With at most six hotspots the cut to twenty-four removes nothing, and every option on
      the frontier lowers the modelled risk by exactly what it says. */
  lemma ReportedFrontier(sigmoid: real -> real, packet: Packet, hotspots: seq<string>, costs: Costs, baseline: real)
    requires Sigmoid(sigmoid) && ValidPacket(packet) && FastRisk(sigmoid, packet) == Ok(baseline)
    requires |hotspots| <= 6
    ensures var all := Candidates(sigmoid, packet, hotspots, costs, baseline);
      && Take(Frontier(all), FRONTIER_LIMIT) == Frontier(all)
      && forall c :: c in Frontier(all) ==> Unclipped(c, baseline)
  {
    var all := Candidates(sigmoid, packet, hotspots, costs, baseline);
    CandidatesUnclipped(sigmoid, packet, hotspots, costs, baseline);
    forall c | c in Frontier(all)
      ensures Unclipped(c, baseline)
    {
      OnFrontier(all, c);
    }
    FrontierNoLonger(all);
  }
}
