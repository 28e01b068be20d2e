/** The simulation loops of the scanner, and what they report. */
module Simulation {
  import opened Prelude
  import opened Propagation
  import opened Scanner
  import opened RiskFindings
  import opened LinkEffects

  /** One finding for each surface, or for each identifier when there are links, whose risk is its
      propagated pressure times its impact; most risky first; and the mean of the first twelve. */
  ghost predicate Told(sigmoid: real -> real, surfaces: seq<Surface>, links: seq<Link>, r: Outcome) {
    && (links == [] ==> multiset(r.findings) == multiset(AllAlone(sigmoid, surfaces)))
    && (links != [] ==>
          forall base :: Starts(sigmoid, surfaces, base) ==> FindingsSpread(surfaces, links, base, r.findings))
    && Falling(r.findings) && IsMean(r.overallRisk, r.findings)
  }

  /** The risk path of `_simulate`, with its accumulating loops. */
  method Simulate(sigmoid: real -> real, surfaces: seq<Surface>, links: seq<Link>) returns (r: Outcome)
    ensures r == Simulated(sigmoid, surfaces, links)
    ensures Told(sigmoid, surfaces, links, r)
  {
    var rows: seq<Row> := [];
    for i := 0 to |surfaces|
      invariant rows == Rows(sigmoid, surfaces[..i])
    {
      rows := rows + [RowOf(sigmoid, surfaces[i])];
    }
    assert surfaces[..|surfaces|] == surfaces;
    rows := Spread(rows, links);
    var findings: seq<Finding> := [];
    for i := 0 to |rows|
      invariant findings == Findings(rows[..i])
    {
      findings := findings + [FindingOf(rows[i])];
    }
    assert rows[..|rows|] == rows;
    findings := SortByRisk(findings);
    r := Outcome(Clamp(MeanRisk(Take(findings, TOP))), findings);
    OutcomeTold(sigmoid, surfaces, links);
  }

  lemma OutcomeTold(sigmoid: real -> real, surfaces: seq<Surface>, links: seq<Link>)
    ensures Told(sigmoid, surfaces, links, Simulated(sigmoid, surfaces, links))
  {
    OverallIsMean(sigmoid, surfaces, links);
    if links == [] {
      FindingsAlone(sigmoid, surfaces);
    } else {
      forall base | Starts(sigmoid, surfaces, base)
        ensures FindingsSpread(surfaces, links, base, Simulated(sigmoid, surfaces, links).findings)
      {
        FindingsFollowRounds(sigmoid, surfaces, links, base);
      }
    }
  }

  method Spread(rows: seq<Row>, links: seq<Link>) returns (r: seq<Row>)
    ensures r == Propagated(rows, links)
  {
    if links == [] {
      return rows;
    }
    var kept: seq<Row> := [];
    for i := 0 to |rows|
      invariant kept == ById(rows[..i])
    {
      assert rows[..i + 1][..i] == rows[..i];
      assert ById(rows[..i + 1]) == Store(ById(rows[..i]), rows[i]);
      kept := Store(kept, rows[i]);
    }
    assert rows[..|rows|] == rows;
    var final := PropagateGraph(PressuresOf(kept), links);
    r := seq(|kept|, i requires 0 <= i < |kept| =>
      if kept[i].id in final then kept[i].(probability := final[kept[i].id]) else kept[i]);
  }
}
