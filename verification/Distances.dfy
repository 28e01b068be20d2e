/** Distances in a finite graph, by rounds of expansion. */
module Distances {

  type Graph = map<string, set<string>>

  function Next(g: Graph, id: string): set<string> { if id in g then g[id] else {} }

  /** Everything reachable from `root` in at most n steps. */
  function Within(g: Graph, root: string, n: nat): set<string> {
    if n == 0 then {root}
    else
      var closer := Within(g, root, n - 1);
      closer + Neighbors(g, closer)
  }

  function Neighbors(g: Graph, ids: set<string>): set<string> {
    set x, y | x in ids && y in Next(g, x) :: y
  }

  ghost predicate AtDistance(g: Graph, root: string, id: string, n: nat) {
    id in Within(g, root, n) && (n > 0 ==> id !in Within(g, root, n - 1))
  }

  lemma {:induction false} WithinGrows(g: Graph, root: string, m: nat, n: nat)
    requires m <= n
    ensures Within(g, root, m) <= Within(g, root, n)
    decreases n - m
  {
    if m < n {
      WithinGrows(g, root, m + 1, n);
      assert Within(g, root, m) <= Within(g, root, m + 1);
    }
  }

  /** The last step of a shortest path. */
  lemma LastHop(g: Graph, root: string, id: string, n: nat) returns (from: string)
    requires n > 0 && AtDistance(g, root, id, n)
    ensures from in Within(g, root, n - 1) && id in Next(g, from)
  {
    from :| from in Within(g, root, n - 1) && id in Next(g, from);
  }

  lemma {:induction false} DistanceWithin(g: Graph, root: string, id: string, n: nat) returns (e: nat)
    requires id in Within(g, root, n)
    ensures e <= n && AtDistance(g, root, id, e) && (e == 0 <==> id == root)
  {
    if n > 0 && id in Within(g, root, n - 1) {
      e := DistanceWithin(g, root, id, n - 1);
    } else {
      e := n;
      if n > 0 {
        WithinGrows(g, root, 0, n - 1);
      }
    }
  }

  /** Whatever is reached and is not the root is linked from something else reached. */
  lemma ReachedFrom(g: Graph, root: string, n: nat, id: string) returns (x: string)
    requires id in Within(g, root, n) && id != root
    ensures x in Within(g, root, n) && x != id && id in Next(g, x)
  {
    var e := DistanceWithin(g, root, id, n);
    x := LastHop(g, root, id, e);
    WithinGrows(g, root, e - 1, n);
  }

  /** A distance is unique. */
  lemma DistanceUnique(g: Graph, root: string, id: string, m: nat, n: nat)
    requires AtDistance(g, root, id, m) && AtDistance(g, root, id, n)
    ensures m == n
  {
    if m < n {
      WithinGrows(g, root, m, n - 1);
    } else if n < m {
      WithinGrows(g, root, n, m - 1);
    }
  }

  /** More edges reach at least as much. */
  lemma {:induction false} WithinMonotone(g: Graph, h: Graph, root: string, n: nat)
    requires forall id :: Next(g, id) <= Next(h, id)
    ensures Within(g, root, n) <= Within(h, root, n)
  {
    if n > 0 {
      WithinMonotone(g, h, root, n - 1);
      forall id | id in Within(g, root, n)
        ensures id in Within(h, root, n)
      {
        if id !in Within(g, root, n - 1) {
          var x :| x in Within(g, root, n - 1) && id in Next(g, x);
        }
      }
    }
  }
}
