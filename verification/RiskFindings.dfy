/** What the simulated findings say of each surface: its propagated pressure times its impact,
    and when a link raises it. */
module RiskFindings {
  import opened Prelude
  import opened Sorting
  import opened Propagation
  import opened Scanner

  /** `i` is the last surface with its identifier. */
  predicate LastWith(surfaces: seq<Surface>, i: nat) {
    i < |surfaces| && forall j :: i < j < |surfaces| ==> surfaces[j].id != surfaces[i].id
  }

  /** Before propagation every identifier has the sigmoid of its last surface's evidence. */
  ghost predicate Starts(sigmoid: real -> real, surfaces: seq<Surface>, base: Pressures) {
    && (forall id :: id in base <==> Known(surfaces, id))
    && forall i: nat :: LastWith(surfaces, i) ==>
        surfaces[i].id in base && base[surfaces[i].id] == sigmoid(Logit(surfaces[i]))
  }

  predicate OneEach(findings: seq<Finding>) {
    forall i, j :: 0 <= i < j < |findings| ==> findings[i].id != findings[j].id
  }

  /** A finding weighs a chance by an impact. */
  function Weighed(id: string, chance: real, impact: real): Finding { Finding(id, Clamp(chance * impact)) }

  /** With links: one finding for each identifier, with the risk of its last surface after three
      rounds. */
  ghost predicate FindingsSpread(surfaces: seq<Surface>, links: seq<Link>, base: Pressures, findings: seq<Finding>) {
    var final := Rounds(base, links, 3);
    && OneEach(findings) && (forall f :: f in findings ==> Known(surfaces, f.id))
    && forall i: nat :: LastWith(surfaces, i) ==>
        surfaces[i].id in final && Weighed(surfaces[i].id, final[surfaces[i].id], Impact(surfaces[i])) in findings
  }

  /** The finding of a surface on its own. */
  function Alone(sigmoid: real -> real, s: Surface): Finding {
    Weighed(s.id, sigmoid(Logit(s)), Impact(s))
  }

  function AllAlone(sigmoid: real -> real, surfaces: seq<Surface>): seq<Finding> {
    seq(|surfaces|, i requires 0 <= i < |surfaces| => Alone(sigmoid, surfaces[i]))
  }

  // ---- the rows of a dictionary ----

  lemma {:induction false} PositionFinds(rows: seq<Row>, id: string)
    ensures Position(rows, id) <= |rows|
    ensures Position(rows, id) < |rows| ==> rows[Position(rows, id)].id == id
    ensures Position(rows, id) == |rows| ==> forall r :: r in rows ==> r.id != id
  {
    if rows != [] && rows[0].id != id {
      PositionFinds(rows[1..], id);
      assert rows == [rows[0]] + rows[1..];
    }
  }

  predicate RowsOnce(rows: seq<Row>) { forall i, j :: 0 <= i < j < |rows| ==> rows[i].id != rows[j].id }

  /** Storing a row replaces the one with its identifier and keeps every other. */
  lemma StoreReplaces(kept: seq<Row>, row: Row)
    requires RowsOnce(kept)
    ensures RowsOnce(Store(kept, row))
    ensures forall r :: r in Store(kept, row) <==> r == row || (r in kept && r.id != row.id)
  {
    PositionFinds(kept, row.id);
    var at, after := Position(kept, row.id), Store(kept, row);
    forall r
      ensures r in after <==> r == row || (r in kept && r.id != row.id)
    {
      if r in after {
        var i :| 0 <= i < |after| && after[i] == r;
        assert i != at && i < |kept| ==> kept[i] == r;
      }
      if r == row {
        assert after[at] == row;
      } else if r in kept && r.id != row.id {
        var i :| 0 <= i < |kept| && kept[i] == r;
        assert after[i] == r;
      }
    }
  }

  predicate LastRow(rows: seq<Row>, i: nat) {
    i < |rows| && forall j :: i < j < |rows| ==> rows[j].id != rows[i].id
  }

  ghost predicate IsLastRow(rows: seq<Row>, r: Row) { exists i: nat :: LastRow(rows, i) && rows[i] == r }

  lemma LastRowBelow(rows: seq<Row>, i: nat)
    requires i < |rows| - 1
    ensures LastRow(rows, i) <==> LastRow(rows[..|rows| - 1], i) && rows[i].id != rows[|rows| - 1].id
  {
    var front := rows[..|rows| - 1];
    assert forall j :: 0 <= j < |front| ==> front[j] == rows[j];
  }

  lemma LastRowNext(rows: seq<Row>, r: Row)
    requires rows != []
    ensures var n := |rows| - 1; IsLastRow(rows, r) <==> r == rows[n] || (IsLastRow(rows[..n], r) && r.id != rows[n].id)
  {
    var n := |rows| - 1;
    assert LastRow(rows, n);
    if IsLastRow(rows, r) && r != rows[n] {
      var i: nat :| LastRow(rows, i) && rows[i] == r;
      LastRowBelow(rows, i);
      assert rows[..n][i] == r;
    }
    if IsLastRow(rows[..n], r) && r.id != rows[n].id {
      var i: nat :| LastRow(rows[..n], i) && rows[..n][i] == r;
      LastRowBelow(rows, i);
      assert rows[i] == r;
    }
  }

  /** A dictionary keeps the last row of each identifier. */
  lemma {:induction false} ByIdKeepsLast(rows: seq<Row>)
    ensures RowsOnce(ById(rows))
    ensures forall r :: r in ById(rows) <==> IsLastRow(rows, r)
  {
    if rows != [] {
      var n := |rows| - 1;
      ByIdKeepsLast(rows[..n]);
      StoreReplaces(ById(rows[..n]), rows[n]);
      forall r
        ensures r in ById(rows) <==> IsLastRow(rows, r)
      {
        LastRowNext(rows, r);
      }
    }
  }

  lemma {:induction false} PressuresRead(rows: seq<Row>)
    requires RowsOnce(rows)
    ensures forall id :: id in PressuresOf(rows) <==> exists r :: r in rows && r.id == id
    ensures forall r :: r in rows ==> r.id in PressuresOf(rows) && PressuresOf(rows)[r.id] == r.probability
  {
    if rows != [] {
      var n := |rows| - 1;
      PressuresRead(rows[..n]);
      assert rows == rows[..n] + [rows[n]];
      forall r | r in rows[..n]
        ensures r.id != rows[n].id
      {
        var i :| 0 <= i < n && rows[i] == r;
      }
    }
  }

  lemma {:induction false} RoundsKeepKeys(p: Pressures, links: seq<Link>, n: nat)
    ensures Rounds(p, links, n).Keys == p.Keys
  {
    if n > 0 {
      RoundsKeepKeys(p, links, n - 1);
    }
  }

  lemma RowsRead(sigmoid: real -> real, surfaces: seq<Surface>, i: nat)
    ensures LastRow(Rows(sigmoid, surfaces), i) <==> LastWith(surfaces, i)
  {
    assert forall j :: 0 <= j < |surfaces| ==> Rows(sigmoid, surfaces)[j].id == surfaces[j].id;
  }

  /** The dictionary of rows spells out the starting pressures. */
  lemma BaseIsKept(sigmoid: real -> real, surfaces: seq<Surface>, base: Pressures)
    requires Starts(sigmoid, surfaces, base)
    ensures PressuresOf(ById(Rows(sigmoid, surfaces))) == base
  {
    var rows := Rows(sigmoid, surfaces);
    var kept := ById(rows);
    ByIdKeepsLast(rows);
    PressuresRead(kept);
    var p := PressuresOf(kept);
    forall id
      ensures id in p <==> id in base
      ensures id in p ==> p[id] == base[id]
    {
      if id in p {
        var r :| r in kept && r.id == id;
        assert IsLastRow(rows, r);
        var i: nat :| LastRow(rows, i) && rows[i] == r;
        RowsRead(sigmoid, surfaces, i);
        assert surfaces[i] in surfaces;
      }
      if id in base {
        var i := LastOf(surfaces, id);
        RowsRead(sigmoid, surfaces, i);
        assert rows[i] in kept;
      }
    }
  }

  /** There always are starting pressures, and only one such map. */
  lemma StartOf(sigmoid: real -> real, surfaces: seq<Surface>) returns (base: Pressures)
    ensures Starts(sigmoid, surfaces, base)
    ensures forall other :: Starts(sigmoid, surfaces, other) ==> other == base
  {
    var rows := Rows(sigmoid, surfaces);
    ByIdKeepsLast(rows);
    PressuresRead(ById(rows));
    base := PressuresOf(ById(rows));
    forall id
      ensures id in base <==> Known(surfaces, id)
    {
      KnownIsKept(sigmoid, surfaces, id);
    }
    forall i: nat | LastWith(surfaces, i)
      ensures surfaces[i].id in base && base[surfaces[i].id] == sigmoid(Logit(surfaces[i]))
    {
      RowsRead(sigmoid, surfaces, i);
      var k := KeptAt(rows, i);
      assert ById(rows)[k] in ById(rows);
    }
    forall other | Starts(sigmoid, surfaces, other)
      ensures other == base
    {
      BaseIsKept(sigmoid, surfaces, other);
    }
  }

  lemma KnownIsKept(sigmoid: real -> real, surfaces: seq<Surface>, id: string)
    ensures Known(surfaces, id) <==> exists r :: r in ById(Rows(sigmoid, surfaces)) && r.id == id
  {
    var rows := Rows(sigmoid, surfaces);
    ByIdKeepsLast(rows);
    if Known(surfaces, id) {
      var i := LastOf(surfaces, id);
      RowsRead(sigmoid, surfaces, i);
      var k := KeptAt(rows, i);
      assert ById(rows)[k] in ById(rows);
    }
    if r :| r in ById(rows) && r.id == id {
      assert IsLastRow(rows, r);
      var i: nat :| LastRow(rows, i) && rows[i] == r;
      assert surfaces[i] in surfaces;
    }
  }

  lemma {:induction false} LastOf(surfaces: seq<Surface>, id: string) returns (i: nat)
    requires Known(surfaces, id)
    ensures LastWith(surfaces, i) && surfaces[i].id == id
  {
    var n := |surfaces| - 1;
    if surfaces[n].id == id {
      i := n;
    } else {
      assert surfaces == surfaces[..n] + [surfaces[n]];
      i := LastOf(surfaces[..n], id);
    }
  }

  lemma PropagatedAt(rows: seq<Row>, links: seq<Link>, k: nat)
    requires links != [] && k < |ById(rows)|
    ensures var row, final := ById(rows)[k], Rounds(PressuresOf(ById(rows)), links, 3);
      && row.id in final && k < |Propagated(rows, links)| == |ById(rows)|
      && Propagated(rows, links)[k] == row.(probability := final[row.id])
  {
    ByIdKeepsLast(rows);
    PressuresRead(ById(rows));
    RoundsKeepKeys(PressuresOf(ById(rows)), links, 3);
    assert ById(rows)[k] in ById(rows);
  }

  lemma SortedMembers(findings: seq<Finding>)
    ensures forall f :: f in SortByRisk(findings) <==> f in findings
    ensures |SortByRisk(findings)| == |findings|
  {
    SortBySorts(Riskier, findings);
    SameMembers(SortByRisk(findings), findings);
  }

  /** With links there is one finding for each identifier: the propagated pressure of its last
      surface times that surface's impact. */
  lemma FindingsFollowRounds(sigmoid: real -> real, surfaces: seq<Surface>, links: seq<Link>, base: Pressures)
    requires links != [] && Starts(sigmoid, surfaces, base)
    ensures FindingsSpread(surfaces, links, base, Simulated(sigmoid, surfaces, links).findings)
  {
    var rows := Rows(sigmoid, surfaces);
    var found := Findings(Propagated(rows, links));
    SortedMembers(found);
    FoundOnce(rows, links);
    SortKeepsOneEach(found);
    FoundKnown(sigmoid, surfaces, links);
    forall i: nat | LastWith(surfaces, i)
      ensures surfaces[i].id in Rounds(base, links, 3)
      ensures Weighed(surfaces[i].id, Rounds(base, links, 3)[surfaces[i].id], Impact(surfaces[i])) in found
    {
      FoundFor(sigmoid, surfaces, links, base, i);
    }
  }

  lemma FoundKnown(sigmoid: real -> real, surfaces: seq<Surface>, links: seq<Link>)
    requires links != []
    ensures forall f :: f in Findings(Propagated(Rows(sigmoid, surfaces), links)) ==> Known(surfaces, f.id)
  {
    var rows := Rows(sigmoid, surfaces);
    var found := Findings(Propagated(rows, links));
    ByIdKeepsLast(rows);
    forall f | f in found
      ensures Known(surfaces, f.id)
    {
      var k :| 0 <= k < |found| && found[k] == f;
      PropagatedAt(rows, links, k);
      var r := ById(rows)[k];
      assert r in ById(rows) && IsLastRow(rows, r);
      var i: nat :| LastRow(rows, i) && rows[i] == r;
      assert surfaces[i] in surfaces;
    }
  }

  lemma FoundFor(sigmoid: real -> real, surfaces: seq<Surface>, links: seq<Link>, base: Pressures, i: nat)
    requires links != [] && Starts(sigmoid, surfaces, base) && LastWith(surfaces, i)
    ensures surfaces[i].id in Rounds(base, links, 3)
    ensures Weighed(surfaces[i].id, Rounds(base, links, 3)[surfaces[i].id], Impact(surfaces[i]))
            in Findings(Propagated(Rows(sigmoid, surfaces), links))
  {
    var rows := Rows(sigmoid, surfaces);
    BaseIsKept(sigmoid, surfaces, base);
    RowsRead(sigmoid, surfaces, i);
    var k := KeptAt(rows, i);
    PropagatedAt(rows, links, k);
    FoundAt(rows, links, k, surfaces[i], Rounds(base, links, 3));
  }

  lemma KeptAt(rows: seq<Row>, i: nat) returns (k: nat)
    requires LastRow(rows, i)
    ensures k < |ById(rows)| && ById(rows)[k] == rows[i]
  {
    ByIdKeepsLast(rows);
    assert IsLastRow(rows, rows[i]);
    k :| 0 <= k < |ById(rows)| && ById(rows)[k] == rows[i];
  }

  lemma FoundAt(rows: seq<Row>, links: seq<Link>, k: nat, s: Surface, final: Pressures)
    requires s.id in final && k < |Propagated(rows, links)|
    requires Propagated(rows, links)[k] == Row(s.id, final[s.id], Impact(s))
    ensures Weighed(s.id, final[s.id], Impact(s)) in Findings(Propagated(rows, links))
  {
    var out := Propagated(rows, links);
    FindingSpelled(s.id, final[s.id], Impact(s));
    assert Findings(out)[k] == FindingOf(out[k]);
  }

  lemma FindingSpelled(id: string, probability: real, impact: real)
    ensures FindingOf(Row(id, probability, impact)) == Weighed(id, probability, impact)
  {
  }

  lemma FoundOnce(rows: seq<Row>, links: seq<Link>)
    requires links != []
    ensures OneEach(Findings(Propagated(rows, links)))
  {
    ByIdKeepsLast(rows);
    var found := Findings(Propagated(rows, links));
    forall i, j | 0 <= i < j < |found|
      ensures found[i].id != found[j].id
    {
      PropagatedAt(rows, links, i);
      PropagatedAt(rows, links, j);
    }
  }

  lemma SortKeepsOneEach(findings: seq<Finding>)
    requires OneEach(findings)
    ensures OneEach(SortByRisk(findings))
  {
    var sorted := SortByRisk(findings);
    SortBySorts(Riskier, findings);
    SameMembers(sorted, findings);
    assert Distinct(findings);
    forall i, j | 0 <= i < j < |sorted|
      ensures sorted[i].id != sorted[j].id
    {
      assert sorted[i] in sorted && sorted[j] in sorted;
      var a :| 0 <= a < |findings| && findings[a] == sorted[i];
      var b :| 0 <= b < |findings| && findings[b] == sorted[j];
      assert a != b;
      assert a < b || b < a;
    }
  }

  /** Without links every surface has its own finding, whatever identifiers repeat. */
  lemma FindingsAlone(sigmoid: real -> real, surfaces: seq<Surface>)
    ensures multiset(Simulated(sigmoid, surfaces, []).findings) == multiset(AllAlone(sigmoid, surfaces))
  {
    var found := Findings(Propagated(Rows(sigmoid, surfaces), []));
    forall i | 0 <= i < |surfaces|
      ensures found[i] == AllAlone(sigmoid, surfaces)[i]
    {
      FindingSpelled(surfaces[i].id, sigmoid(Logit(surfaces[i])), Impact(surfaces[i]));
      assert found[i] == FindingOf(RowOf(sigmoid, surfaces[i]));
    }
    assert found == AllAlone(sigmoid, surfaces);
    SortBySorts(Riskier, found);
  }

  // ---- what a surface weighs ----

  /** The middle of the scale: five fields at one half and no signals. */
  function Middling(id: string): Surface { Surface(id, 0.5, 0.5, 0.5, 0.5, 0.5, 0) }

  /** Each field moves the evidence in proportion, exposure the most and control the other way;
      signals count up to twelve. */
  lemma EvidenceMoves(s: Surface, d: real)
    ensures Logit(Middling(s.id)) == -0.975
    ensures Logit(s.(exposure := s.exposure + d)) == Logit(s) + 2.05 * d
    ensures Logit(s.(criticality := s.criticality + d)) == Logit(s) + 0.95 * d
    ensures Logit(s.(humanPressure := s.humanPressure + d)) == Logit(s) + 0.72 * d
    ensures Logit(s.(controlStrength := s.controlStrength + d)) == Logit(s) - 1.75 * d
    ensures Logit(s.(telemetryConfidence := s.telemetryConfidence + d)) == Logit(s) - 0.48 * d
    ensures Logit(s.(signals := 12)) == Logit(s.(signals := 0)) + 0.40
    ensures s.signals >= 12 ==> Logit(s) == Logit(s.(signals := 12))
    ensures s.signals < 12 ==> 12.0 * (Logit(s.(signals := s.signals + 1)) - Logit(s)) == 0.40
  {
    assert s.signals >= 12 ==> s.signals as real / 12.0 >= 1.0;
  }

  /** The impact of a valid surface is a weighted mean of three fields, so its clamp cuts nothing. */
  lemma ImpactIsMean(s: Surface, d: real)
    requires ValidSurface(s)
    ensures RMin(s.criticality, RMin(s.exposure, s.humanPressure)) <= Impact(s)
         <= RMax(s.criticality, RMax(s.exposure, s.humanPressure))
    ensures UnitInterval(s.criticality + d) ==> Impact(s.(criticality := s.criticality + d)) == Impact(s) + 0.78 * d
    ensures UnitInterval(s.exposure + d) ==> Impact(s.(exposure := s.exposure + d)) == Impact(s) + 0.15 * d
    ensures UnitInterval(s.humanPressure + d) ==>
      Impact(s.(humanPressure := s.humanPressure + d)) == Impact(s) + 0.07 * d
  {
  }
}
