/** Strengthening a surface never raises the modelled overall risk, end to end. */
module Strengthening {
  import opened Prelude
  import opened Sorting
  import opened Propagation
  import opened Scanner

  /** `s` is at least as well protected as `s'` in every field. */
  predicate Safer(s: Surface, s': Surface) {
    && s.id == s'.id && s.criticality <= s'.criticality && s.exposure <= s'.exposure
    && s.controlStrength >= s'.controlStrength && s.humanPressure <= s'.humanPressure
    && s.telemetryConfidence >= s'.telemetryConfidence && s.signals <= s'.signals
  }

  ghost predicate AllSafer(surfaces: seq<Surface>, surfaces': seq<Surface>) {
    |surfaces| == |surfaces'| && forall i :: 0 <= i < |surfaces| ==> Safer(surfaces[i], surfaces'[i])
  }

  predicate RowBelow(r: Row, r': Row) {
    r.id == r'.id && 0.0 <= r.probability <= r'.probability <= 1.0 && 0.0 <= r.impact <= r'.impact <= 1.0
  }

  ghost predicate RowsBelow(rows: seq<Row>, rows': seq<Row>) {
    |rows| == |rows'| && forall i :: 0 <= i < |rows| ==> RowBelow(rows[i], rows'[i])
  }

  lemma SaferRow(sigmoid: real -> real, s: Surface, s': Surface)
    requires Sigmoid(sigmoid) && ValidSurface(s) && ValidSurface(s') && Safer(s, s')
    ensures RowBelow(RowOf(sigmoid, s), RowOf(sigmoid, s'))
  {
    assert s.signals as real / 12.0 <= s'.signals as real / 12.0;
    assert Logit(s) <= Logit(s');
  }

  lemma PositionAlike(rows: seq<Row>, rows': seq<Row>, id: string)
    requires RowsBelow(rows, rows')
    ensures Position(rows, id) == Position(rows', id) <= |rows|
    ensures Position(rows, id) < |rows| ==> rows[Position(rows, id)].id == id
  {
    if rows != [] && rows[0].id != id {
      assert RowBelow(rows[0], rows'[0]);
      PositionAlike(rows[1..], rows'[1..], id);
    }
  }

  /** Collapsing duplicate identifiers keeps the comparison, so identifiers need not be distinct. */
  lemma {:induction false} ByIdBelow(rows: seq<Row>, rows': seq<Row>)
    requires RowsBelow(rows, rows')
    ensures RowsBelow(ById(rows), ById(rows'))
  {
    if rows != [] {
      var n := |rows| - 1;
      ByIdBelow(rows[..n], rows'[..n]);
      assert RowBelow(rows[n], rows'[n]);
      StoreBelow(ById(rows[..n]), ById(rows'[..n]), rows[n], rows'[n]);
    }
  }

  lemma StoreBelow(kept: seq<Row>, kept': seq<Row>, r: Row, r': Row)
    requires RowsBelow(kept, kept') && RowBelow(r, r')
    ensures RowsBelow(Store(kept, r), Store(kept', r'))
  {
    PositionAlike(kept, kept', r.id);
  }

  lemma {:induction false} PressuresBelow(rows: seq<Row>, rows': seq<Row>)
    requires RowsBelow(rows, rows')
    ensures Below(PressuresOf(rows), PressuresOf(rows'))
    ensures ValidPressures(PressuresOf(rows)) && ValidPressures(PressuresOf(rows'))
  {
    if rows != [] {
      var n := |rows| - 1;
      PressuresBelow(rows[..n], rows'[..n]);
      assert RowBelow(rows[n], rows'[n]);
    }
  }

  lemma PropagatedBelow(rows: seq<Row>, rows': seq<Row>, links: seq<Link>)
    requires RowsBelow(rows, rows') && ValidLinks(links)
    ensures RowsBelow(Propagated(rows, links), Propagated(rows', links))
  {
    if links != [] {
      var kept, kept' := ById(rows), ById(rows');
      ByIdBelow(rows, rows');
      PressuresBelow(kept, kept');
      RoundsMonotone(PressuresOf(kept), links, PressuresOf(kept'), links, 3);
      SpreadBelow(kept, kept', Rounds(PressuresOf(kept), links, 3), Rounds(PressuresOf(kept'), links, 3), links, rows,
          rows');
    }
  }

  lemma SpreadBelow(kept: seq<Row>, kept': seq<Row>, final: Pressures, final': Pressures, links: seq<Link>,
      rows: seq<Row>, rows': seq<Row>)
    requires links != [] && kept == ById(rows) && kept' == ById(rows') && RowsBelow(kept, kept')
    requires final == Rounds(PressuresOf(kept), links, 3) && final' == Rounds(PressuresOf(kept'), links, 3)
    requires Below(final, final') && ValidPressures(final) && ValidPressures(final')
    ensures RowsBelow(Propagated(rows, links), Propagated(rows', links))
  {
    var out, out' := Propagated(rows, links), Propagated(rows', links);
    forall i | 0 <= i < |kept|
      ensures RowBelow(out[i], out'[i])
    {
      assert RowBelow(kept[i], kept'[i]);
    }
  }

  ghost predicate RisksBelow(f: seq<Finding>, f': seq<Finding>) {
    |f| == |f'| && forall i :: 0 <= i < |f| ==> f[i].risk <= f'[i].risk
  }

  lemma ClampBelow(x: real, y: real)
    requires x <= y
    ensures Clamp(x) <= Clamp(y)
  {
  }

  lemma FindingBelow(r: Row, r': Row, x: real, y: real)
    requires RowBelow(r, r') && x == r.probability * r.impact && y == r'.probability * r'.impact
    ensures FindingOf(r).risk <= FindingOf(r').risk
  {
    Product(r.probability, r'.probability, r.impact, r'.impact);
    ClampBelow(x, y);
  }

  lemma FindingsBelow(rows: seq<Row>, rows': seq<Row>)
    requires RowsBelow(rows, rows')
    ensures RisksBelow(Findings(rows), Findings(rows'))
  {
    forall i | 0 <= i < |rows|
      ensures Findings(rows)[i].risk <= Findings(rows')[i].risk
    {
      var r, r' := rows[i], rows'[i];
      FindingBelow(r, r', r.probability * r.impact, r'.probability * r'.impact);
    }
  }

  lemma ConsBelow(x: Finding, f: seq<Finding>, y: Finding, g: seq<Finding>)
    requires x.risk <= y.risk && RisksBelow(f, g)
    ensures RisksBelow([x] + f, [y] + g)
  {
  }

  lemma TailsBelow(f: seq<Finding>, g: seq<Finding>)
    requires f != [] && Descending(f) && Descending(g) && RisksBelow(f, g)
    ensures g != [] && Descending(f[1..]) && Descending(g[1..]) && RisksBelow(f[1..], g[1..]) && f[0].risk <= g[0].risk
  {
  }

  /** Inserting a smaller element into a smaller ranking gives a smaller ranking. */
  lemma {:induction false} InsertBelow(x: Finding, f: seq<Finding>, y: Finding, g: seq<Finding>)
    requires Descending(f) && Descending(g) && RisksBelow(f, g) && x.risk <= y.risk
    ensures RisksBelow(InsertBy(Riskier, x, f), InsertBy(Riskier, y, g))
    decreases |f|
  {
    if f == [] {
      assert g == [];
    } else {
      TailsBelow(f, g);
      if x.risk >= f[0].risk && y.risk >= g[0].risk {
        ConsBelow(x, f, y, g);
      } else if x.risk >= f[0].risk {
        InsertHead(f);
        InsertBelow(f[0], f[1..], y, g[1..]);
        ConsBelow(x, f, g[0], InsertBy(Riskier, y, g[1..]));
      } else if y.risk >= g[0].risk {
        InsertHead(g);
        InsertBelow(x, f[1..], g[0], g[1..]);
        ConsBelow(f[0], InsertBy(Riskier, x, f[1..]), y, g);
      } else {
        InsertBelow(x, f[1..], y, g[1..]);
        ConsBelow(f[0], InsertBy(Riskier, x, f[1..]), g[0], InsertBy(Riskier, y, g[1..]));
      }
    }
  }

  lemma InsertHead(f: seq<Finding>)
    requires f != [] && Descending(f)
    ensures InsertBy(Riskier, f[0], f[1..]) == f
  {
  }

  /** Order statistics are monotone: pointwise smaller risks rank pointwise smaller. */
  lemma {:induction false} SortBelow(f: seq<Finding>, g: seq<Finding>)
    requires RisksBelow(f, g)
    ensures RisksBelow(SortByRisk(f), SortByRisk(g))
  {
    if f != [] {
      SortBelow(f[1..], g[1..]);
      SortSorts(f[1..]);
      SortSorts(g[1..]);
      InsertBelow(f[0], SortByRisk(f[1..]), g[0], SortByRisk(g[1..]));
    }
  }

  lemma {:induction false} SumBelow(f: seq<Finding>, g: seq<Finding>)
    requires RisksBelow(f, g)
    ensures SumRisk(f) <= SumRisk(g)
  {
    if f != [] {
      SumBelow(f[..|f| - 1], g[..|g| - 1]);
    }
  }

  lemma MeanBelow(f: seq<Finding>, g: seq<Finding>)
    requires RisksBelow(f, g)
    ensures MeanRisk(f) <= MeanRisk(g)
  {
    if f != [] {
      SumBelow(f, g);
      DivideBelow(SumRisk(f), SumRisk(g), |f| as real);
    }
  }

  lemma DivideBelow(a: real, b: real, n: real)
    requires a <= b && n > 0.0
    ensures a / n <= b / n
  {
    assert b / n - a / n == (b - a) / n;
  }

  lemma RowsOfSafer(sigmoid: real -> real, surfaces: seq<Surface>, surfaces': seq<Surface>)
    requires Sigmoid(sigmoid) && AllSafer(surfaces, surfaces')
    requires forall s :: s in surfaces ==> ValidSurface(s)
    requires forall s :: s in surfaces' ==> ValidSurface(s)
    ensures RowsBelow(Rows(sigmoid, surfaces), Rows(sigmoid, surfaces'))
  {
    forall i | 0 <= i < |surfaces|
      ensures RowBelow(RowOf(sigmoid, surfaces[i]), RowOf(sigmoid, surfaces'[i]))
    {
      assert surfaces[i] in surfaces && surfaces'[i] in surfaces';
      SaferRow(sigmoid, surfaces[i], surfaces'[i]);
    }
  }

  /** Safer surfaces under any links: overall risk is at most what it was. */
  lemma SaferNeverRiskier(sigmoid: real -> real, surfaces: seq<Surface>, surfaces': seq<Surface>, links: seq<Link>)
    requires Sigmoid(sigmoid) && AllSafer(surfaces, surfaces') && ValidLinks(links)
    requires forall s :: s in surfaces ==> ValidSurface(s)
    requires forall s :: s in surfaces' ==> ValidSurface(s)
    ensures Simulated(sigmoid, surfaces, links).overallRisk <= Simulated(sigmoid, surfaces', links).overallRisk
  {
    var rows, rows' := Rows(sigmoid, surfaces), Rows(sigmoid, surfaces');
    RowsOfSafer(sigmoid, surfaces, surfaces');
    PropagatedBelow(rows, rows', links);
    FindingsBelow(Propagated(rows, links), Propagated(rows', links));
    SortBelow(Findings(Propagated(rows, links)), Findings(Propagated(rows', links)));
    var top := Simulated(sigmoid, surfaces, links).findings;
    var top' := Simulated(sigmoid, surfaces', links).findings;
    MeanBelow(Take(top, TOP), Take(top', TOP));
  }
}
