/** What the propagated pressures depend on: not the order of the links, and nothing more
    than three links upstream. */
module PropagationShape {
  import opened Distances
  import opened Propagation

  lemma {:induction false} IncrementSplit(p: Pressures, a: seq<Link>, l: Link, b: seq<Link>, round: nat, id: string)
    ensures Increment(p, a + [l] + b, round, id)
         == Increment(p, a + b, round, id) + if Connects(p, l, id) then Flow(p, l, round) else 0.0
  {
    if b == [] {
      assert (a + [l] + b)[..|a|] == a && a + b == a;
    } else {
      var n := |b| - 1;
      IncrementSplit(p, a, l, b[..n], round, id);
      assert (a + [l] + b)[..|a| + |b|] == a + [l] + b[..n];
      assert (a + b)[..|a| + n] == a + b[..n];
    }
  }

  /** Where the last link of one listing sits in another listing of the same links. */
  lemma SplitOff(links: seq<Link>, links': seq<Link>) returns (j: nat)
    requires links != [] && multiset(links) == multiset(links')
    ensures j < |links'| && links' == links'[..j] + [links[|links| - 1]] + links'[j + 1..]
    ensures multiset(links[..|links| - 1]) == multiset(links'[..j] + links'[j + 1..])
  {
    var front, l := links[..|links| - 1], links[|links| - 1];
    assert links == front + [l];
    assert l in multiset(links');
    j :| 0 <= j < |links'| && links'[j] == l;
    var a, b := links'[..j], links'[j + 1..];
    assert links' == a + [l] + b;
    Pulled(a, l, b);
    assert multiset(front) + multiset{l} == multiset(a + b) + multiset{l};
    assert multiset(front) == (multiset(front) + multiset{l}) - multiset{l};
  }

  lemma Pulled(a: seq<Link>, l: Link, b: seq<Link>)
    ensures multiset(a + [l] + b) == multiset(a + b) + multiset{l}
  {
    assert multiset(a + [l] + b) == multiset(a) + multiset{l} + multiset(b);
    assert multiset(a + b) == multiset(a) + multiset(b);
  }

  /** The increments do not depend on the order in which links are listed. */
  lemma {:induction false} IncrementReordered(p: Pressures, links: seq<Link>, links': seq<Link>, round: nat, id: string)
    requires multiset(links) == multiset(links')
    ensures Increment(p, links, round, id) == Increment(p, links', round, id)
  {
    if links == [] {
      assert |multiset(links')| == 0;
    } else {
      var j := SplitOff(links, links');
      IncrementReordered(p, links[..|links| - 1], links'[..j] + links'[j + 1..], round, id);
      IncrementSplit(p, links'[..j], links[|links| - 1], links'[j + 1..], round, id);
    }
  }

  lemma TouchedReordered(p: Pressures, links: seq<Link>, links': seq<Link>, id: string)
    requires multiset(links) == multiset(links')
    ensures Touched(p, links, id) <==> Touched(p, links', id)
  {
    assert forall l :: l in links <==> l in multiset(links);
    assert forall l :: l in links' <==> l in multiset(links');
  }

  /** Reordering the links changes no pressure. */
  lemma {:induction false} OrderIrrelevant(p: Pressures, links: seq<Link>, links': seq<Link>, n: nat)
    requires multiset(links) == multiset(links')
    ensures Rounds(p, links, n) == Rounds(p, links', n)
  {
    if n > 0 {
      OrderIrrelevant(p, links, links', n - 1);
      var q := Rounds(p, links, n - 1);
      forall id | id in q
        ensures Touched(q, links, id) <==> Touched(q, links', id)
        ensures Increment(q, links, n - 1, id) == Increment(q, links', n - 1, id)
      {
        TouchedReordered(q, links, links', id);
        IncrementReordered(q, links, links', n - 1, id);
      }
    }
  }

  /** The graph read backwards: from a surface to the surfaces that push into it. */
  function Upstream(links: seq<Link>): Graph {
    map id | id in Targets(links) :: Sources(links, id)
  }

  function Targets(links: seq<Link>): set<string> { set l | l in links :: l.target }

  function Sources(links: seq<Link>, target: string): set<string> {
    set l | l in links && l.target == target :: l.source
  }

  ghost predicate AgreeOn(p: Pressures, p': Pressures, ids: set<string>) {
    p.Keys == p'.Keys && forall id :: id in ids && id in p ==> p[id] == p'[id]
  }

  lemma {:induction false} IncrementLocal(p: Pressures, p': Pressures, links: seq<Link>, round: nat, id: string)
    requires AgreeOn(p, p', Sources(links, id))
    ensures Increment(p, links, round, id) == Increment(p', links, round, id)
  {
    if links != [] {
      var n := |links| - 1;
      assert forall l :: l in links[..n] ==> l in links;
      assert links[n] in links;
      IncrementLocal(p, p', links[..n], round, id);
    }
  }

  lemma TouchedLocal(p: Pressures, p': Pressures, links: seq<Link>, id: string)
    requires p.Keys == p'.Keys
    ensures Touched(p, links, id) <==> Touched(p', links, id)
  {
    if Touched(p, links, id) {
      var l :| l in links && Connects(p, l, id);
      assert Connects(p', l, id);
    }
    if Touched(p', links, id) {
      var l :| l in links && Connects(p', l, id);
      assert Connects(p, l, id);
    }
  }

  lemma RoundLocal(p: Pressures, p': Pressures, links: seq<Link>, round: nat, id: string)
    requires AgreeOn(p, p', {id} + Next(Upstream(links), id)) && id in p
    ensures Round(p, links, round)[id] == Round(p', links, round)[id]
  {
    forall s | s in Sources(links, id)
      ensures s in Next(Upstream(links), id)
    {
      var l :| l in links && l.target == id && l.source == s;
      assert id in Targets(links);
    }
    IncrementLocal(p, p', links, round, id);
    TouchedLocal(p, p', links, id);
  }

  lemma AgreeCloser(p: Pressures, p': Pressures, g: Graph, id: string, x: string, n: nat)
    requires AgreeOn(p, p', Within(g, id, n + 1)) && x in {id} + Next(g, id)
    ensures AgreeOn(p, p', Within(g, x, n))
  {
    OneHop(g, id, x, n);
  }

  /** n rounds look at most n links upstream: the final pressure of a surface is decided by
      the input pressures of the surfaces within that distance. */
  lemma {:induction false} RoundsLocal(p: Pressures, p': Pressures, links: seq<Link>, n: nat, id: string)
    requires AgreeOn(p, p', Within(Upstream(links), id, n)) && id in p
    ensures Rounds(p, links, n).Keys == p.Keys == Rounds(p', links, n).Keys
    ensures Rounds(p, links, n)[id] == Rounds(p', links, n)[id]
    decreases n
  {
    RoundsKeys(p, links, n);
    RoundsKeys(p', links, n);
    if n > 0 {
      RoundsKeys(p, links, n - 1);
      RoundsKeys(p', links, n - 1);
      var q, q' := Rounds(p, links, n - 1), Rounds(p', links, n - 1);
      forall x | x in {id} + Next(Upstream(links), id) && x in p
        ensures q[x] == q'[x]
      {
        AgreeCloser(p, p', Upstream(links), id, x, n - 1);
        RoundsLocal(p, p', links, n - 1, x);
      }
      RoundLocal(q, q', links, n - 1, id);
    }
  }

  lemma {:induction false} RoundsKeys(p: Pressures, links: seq<Link>, n: nat)
    ensures Rounds(p, links, n).Keys == p.Keys
  {
    if n > 0 {
      RoundsKeys(p, links, n - 1);
    }
  }

  /** What is within n of a neighbour is within n + 1. */
  lemma {:induction false} OneHop(g: Graph, id: string, x: string, n: nat)
    requires x in {id} + Next(g, id)
    ensures Within(g, x, n) <= Within(g, id, n + 1)
  {
    if n == 0 {
      assert Within(g, id, 0) == {id};
      if x != id {
        assert x in Neighbors(g, {id});
      }
    } else {
      OneHop(g, id, x, n - 1);
      assert Neighbors(g, Within(g, x, n - 1)) <= Neighbors(g, Within(g, id, n));
    }
  }
}
