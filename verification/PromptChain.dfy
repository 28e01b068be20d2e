/** Symbolic prompt-chain taint (phishing_rod.py, simulate_prompt_chain): a node's taint is
    the value of the best path of parents that ends in it. */
module PromptChain {
  import opened Prelude

  const CHAIN_LIMIT := 128
  const ID_LIMIT := 96
  const PARENT_LIMIT := 16

  /** What the simulator reads of a node; `injects` and `requestsTool` are the answers of the
      two content patterns, and `trust` is in lower case. */
  datatype Node = Node(id: string, trust: string, injects: bool, requestsTool: bool, parents: seq<string>)

  /** Identifiers and parent lists are cut to their limits. */
  function Normalized(raw: Node): Node {
    var cut := seq(|raw.parents|, i requires 0 <= i < |raw.parents| => Take(raw.parents[i], ID_LIMIT));
    raw.(id := Take(raw.id, ID_LIMIT), parents := Take(cut, PARENT_LIMIT))
  }

  function Chain(raw: seq<Node>): seq<Node> {
    var kept := Take(raw, CHAIN_LIMIT);
    seq(|kept|, i requires 0 <= i < |kept| => Normalized(kept[i]))
  }

  function Base(node: Node): real {
    RMax(if node.injects then 0.72 else 0.0, if node.requestsTool then 0.24 else 0.0)
  }

  /** What a node's own content contributes. */
  function Own(node: Node): real {
    if node.trust == "trusted-controller" then 0.0
    else if node.trust == "sanitized" then Base(node) * 0.35
    else Base(node)
  }

  /** What a node lets through of the taint it inherits. */
  function Decay(node: Node): real {
    if node.trust == "trusted-controller" then 0.25
    else if node.trust == "sanitized" then 0.45
    else 0.82
  }

  /** The position whose taint an identifier names while position `i` is being computed: the
      latest earlier node with that identifier. */
  function Resolve(chain: seq<Node>, i: nat, id: string): Option<nat>
    requires i <= |chain|
  {
    if i == 0 then None
    else if chain[i - 1].id == id then Some(i - 1)
    else Resolve(chain, i - 1, id)
  }

  lemma {:induction false} ResolveEarlier(chain: seq<Node>, i: nat, id: string)
    requires i <= |chain|
    ensures Resolve(chain, i, id).Some? ==>
              Resolve(chain, i, id).value < i && chain[Resolve(chain, i, id).value].id == id
  {
    if i > 0 && chain[i - 1].id != id {
      ResolveEarlier(chain, i - 1, id);
    }
  }

  predicate Parent(chain: seq<Node>, i: nat, j: nat)
    requires i < |chain|
  {
    j < i && chain[j].id in chain[i].parents && Resolve(chain, i, chain[j].id) == Some(j)
  }

  /** A path of positions, each the parent of the next, that ends in `i`. */
  ghost predicate Path(chain: seq<Node>, p: seq<nat>, i: nat) {
    && p != [] && i < |chain| && p[|p| - 1] == i
    && (|p| > 1 ==> Parent(chain, i, p[|p| - 2]) && Path(chain, p[..|p| - 1], p[|p| - 2]))
  }

  /** The first node's own taint times the decay of every later node. */
  ghost function Worth(chain: seq<Node>, p: seq<nat>): real
    requires p != [] && forall k :: 0 <= k < |p| ==> p[k] < |chain|
  {
    if |p| == 1 then Own(chain[p[0]])
    else Decay(chain[p[|p| - 1]]) * Worth(chain, p[..|p| - 1])
  }

  lemma {:induction false} PathInside(chain: seq<Node>, p: seq<nat>, i: nat)
    requires Path(chain, p, i)
    ensures forall k :: 0 <= k < |p| ==> p[k] <= i < |chain|
  {
    if |p| > 1 {
      PathInside(chain, p[..|p| - 1], p[|p| - 2]);
      assert p == p[..|p| - 1] + [i];
    } else {
      assert p == [i];
    }
  }

  ghost predicate PathOf(chain: seq<Node>, p: seq<nat>, i: nat, t: real) {
    && Path(chain, p, i)
    && (forall k :: 0 <= k < |p| ==> p[k] < |chain|)
    && Worth(chain, p) == t
  }

  /** `t` is the greatest worth of a path ending in `i`. */
  ghost predicate Best(chain: seq<Node>, i: nat, t: real) {
    && (exists p :: PathOf(chain, p, i, t))
    && (forall p, w :: PathOf(chain, p, i, w) ==> w <= t)
  }

  /** `t` is the greatest taint of a parent of `i`, or zero. */
  ghost predicate Inherits(chain: seq<Node>, taints: seq<real>, i: nat, t: real)
    requires i <= |taints| && i < |chain|
  {
    && (forall j: nat :: Parent(chain, i, j) ==> taints[j] <= t)
    && (t == 0.0 || exists j: nat :: Parent(chain, i, j) && taints[j] == t)
  }

  /** The branches of the simulator, before its clamp. */
  function Mixed(node: Node, inherited: real): real {
    if node.trust == "trusted-controller" then inherited * 0.25
    else if node.trust == "sanitized" then RMax(Base(node) * 0.35, inherited * 0.45)
    else RMax(Base(node), inherited * 0.82)
  }

  lemma ExtendPath(chain: seq<Node>, p: seq<nat>, j: nat, i: nat, t: real)
    requires i < |chain| && Parent(chain, i, j) && PathOf(chain, p, j, t)
    ensures PathOf(chain, p + [i], i, Decay(chain[i]) * t)
  {
    assert (p + [i])[..|p|] == p;
  }

  lemma StartPath(chain: seq<Node>, i: nat)
    requires i < |chain|
    ensures PathOf(chain, [i], i, Own(chain[i]))
  {
  }

  /** A path ending in `i` is `i` alone or extends a path ending in a parent. */
  lemma LastStep(chain: seq<Node>, p: seq<nat>, i: nat, w: real) returns (j: nat, u: real)
    requires PathOf(chain, p, i, w)
    ensures i < |chain|
    ensures |p| == 1 ==> w == Own(chain[i])
    ensures |p| > 1 ==> Parent(chain, i, j) && PathOf(chain, p[..|p| - 1], j, u) && w == Decay(chain[i]) * u
  {
    j, u := i, w;
    if |p| > 1 {
      j := p[|p| - 2];
      PathInside(chain, p[..|p| - 1], j);
      u := Worth(chain, p[..|p| - 1]);
    }
  }

  lemma MixedIsLarger(node: Node, t: real)
    requires 0.0 <= t <= 0.72
    ensures Mixed(node, t) == RMax(Own(node), Decay(node) * t)
    ensures 0.0 <= Mixed(node, t) <= 0.72
  {
  }

  lemma DecayMonotone(node: Node, t: real, u: real)
    requires t <= u
    ensures Decay(node) * t <= Decay(node) * u
  {
  }

  /** One turn of the loop: from the parents' best paths to the node's best path. */
  lemma StepIsBest(chain: seq<Node>, taints: seq<real>, i: nat, t: real)
    requires i == |taints| < |chain| && 0.0 <= t <= 0.72
    requires forall j :: 0 <= j < i ==> Best(chain, j, taints[j])
    requires Inherits(chain, taints, i, t)
    ensures Best(chain, i, Mixed(chain[i], t))
  {
    MixedIsLarger(chain[i], t);
    StartPath(chain, i);
    var best := Mixed(chain[i], t);
    if best != Own(chain[i]) {
      var j: nat :| Parent(chain, i, j) && taints[j] == t;
      var p :| PathOf(chain, p, j, t);
      ExtendPath(chain, p, j, i, t);
      assert PathOf(chain, p + [i], i, best);
    }
    forall p, w | PathOf(chain, p, i, w)
      ensures w <= best
    {
      var j, u := LastStep(chain, p, i, w);
      if |p| > 1 {
        assert u <= taints[j];
        DecayMonotone(chain[i], u, t);
      }
    }
  }

  /** The dictionary holds, for each identifier, the taint of the latest node with it. */
  ghost predicate Recorded(chain: seq<Node>, taints: seq<real>, byId: map<string, real>)
    requires |taints| <= |chain|
  {
    && (forall id :: Resolve(chain, |taints|, id).Some? <==> id in byId)
    && (forall id :: id in byId ==>
        Resolve(chain, |taints|, id).value < |taints| && byId[id] == taints[Resolve(chain, |taints|, id).value])
  }

  /** The largest taint recorded for a parent, zero when there is none. */
  method Inherited(chain: seq<Node>, ghost taints: seq<real>, byId: map<string, real>, parents: seq<string>)
      returns (t: real)
    requires |taints| < |chain| && chain[|taints|].parents == parents
    requires Recorded(chain, taints, byId)
    requires forall j :: 0 <= j < |taints| ==> 0.0 <= taints[j] <= 0.72
    ensures 0.0 <= t <= 0.72 && Inherits(chain, taints, |taints|, t)
  {
    ghost var i := |taints|;
    t := 0.0;
    for k := 0 to |parents|
      invariant 0.0 <= t <= 0.72
      invariant forall j: nat :: Parent(chain, i, j) && chain[j].id in parents[..k] ==> taints[j] <= t
      invariant t == 0.0 || exists j: nat :: Parent(chain, i, j) && taints[j] == t
    {
      assert parents[..k + 1] == parents[..k] + [parents[k]];
      ResolveEarlier(chain, i, parents[k]);
      var taint := if parents[k] in byId then byId[parents[k]] else 0.0;
      if taint > t {
        assert Parent(chain, i, Resolve(chain, i, parents[k]).value);
        t := taint;
      }
    }
    assert parents[..|parents|] == parents;
  }

  // ---- the taints as numbers, from node to node ----

  /** A parent is the latest earlier node with an identifier the node names. */
  lemma ParentIsLatest(chain: seq<Node>, i: nat, j: nat)
    requires i < |chain|
    ensures Parent(chain, i, j) <==>
      j < i && chain[j].id in chain[i].parents && forall k :: j < k < i ==> chain[k].id != chain[j].id
  {
    if j < i {
      ResolvesLatest(chain, i, j);
    }
  }

  lemma {:induction false} ResolvesLatest(chain: seq<Node>, i: nat, j: nat)
    requires j < i <= |chain|
    ensures Resolve(chain, i, chain[j].id) == Some(j) <==> forall k :: j < k < i ==> chain[k].id != chain[j].id
  {
    if j < i - 1 {
      ResolvesLatest(chain, i - 1, j);
    }
  }

  /** What a node adds by its own content: most for an injection, less for a tool request. */
  function Adds(node: Node): real {
    if node.trust == "trusted-controller" then 0.0
    else if node.trust == "sanitized" then (if node.injects then 0.252 else if node.requestsTool then 0.084 else 0.0)
    else if node.injects then 0.72
    else if node.requestsTool then 0.24
    else 0.0
  }

  /** The share of an inherited taint a node lets through. */
  predicate Passes(node: Node, share: real) {
    && (node.trust == "trusted-controller" ==> share == 0.25)
    && (node.trust == "sanitized" ==> share == 0.45)
    && (node.trust != "trusted-controller" && node.trust != "sanitized" ==> share == 0.82)
  }

  /** A taint is the node's own addition or the share it lets through of its most tainted parent,
      whichever is larger. */
  ghost predicate Balanced(chain: seq<Node>, taints: seq<real>, i: nat)
    requires i < |chain| == |taints|
  {
    exists share :: Passes(chain[i], share) && BalancedBy(chain, taints, i, share)
  }

  ghost predicate BalancedBy(chain: seq<Node>, taints: seq<real>, i: nat, share: real)
    requires i < |chain| == |taints|
  {
    && taints[i] >= Adds(chain[i])
    && (forall j: nat :: Parent(chain, i, j) ==> taints[i] >= share * taints[j])
    && (taints[i] == Adds(chain[i]) || exists j: nat :: Parent(chain, i, j) && taints[i] == share * taints[j])
  }

  /** Best paths balance at every node. */
  lemma BestBalances(chain: seq<Node>, taints: seq<real>, i: nat)
    requires i < |chain| == |taints| && forall j :: 0 <= j < |chain| ==> Best(chain, j, taints[j])
    ensures Balanced(chain, taints, i)
  {
    var share := Decay(chain[i]);
    StartPath(chain, i);
    assert Adds(chain[i]) == Own(chain[i]);
    forall j: nat | Parent(chain, i, j)
      ensures taints[i] >= share * taints[j]
    {
      var p :| PathOf(chain, p, j, taints[j]);
      ExtendPath(chain, p, j, i, taints[j]);
    }
    var p :| PathOf(chain, p, i, taints[i]);
    var j, u := LastStep(chain, p, i, taints[i]);
    if |p| > 1 {
      ShareOfBest(chain, taints, i, j, u, share);
    }
    assert BalancedBy(chain, taints, i, share);
  }

  lemma ShareOfBest(chain: seq<Node>, taints: seq<real>, i: nat, j: nat, u: real, share: real)
    requires j < |taints| && u <= taints[j] && share >= 0.0 && i < |taints|
    requires taints[i] == share * u && taints[i] >= share * taints[j]
    ensures taints[i] == share * taints[j]
  {
    assert share * u <= share * taints[j];
  }

  /** Every node's taint is the worth of its best path, over any list of nodes: identifiers
      may repeat and parents may be unknown or later. None exceeds the taint of an injection. */
  method SimulatePromptChain(raw: seq<Node>) returns (taints: seq<real>)
    ensures |taints| == |Chain(raw)| == Min(|raw|, CHAIN_LIMIT)
    ensures forall i :: 0 <= i < |taints| ==> Best(Chain(raw), i, taints[i]) && 0.0 <= taints[i] <= 0.72
    ensures forall i :: 0 <= i < |taints| ==> Balanced(Chain(raw), taints, i)
  {
    var chain := Chain(raw);
    var byId: map<string, real> := map[];
    taints := [];
    for i := 0 to |chain|
      invariant |taints| == i
      invariant Recorded(chain, taints, byId)
      invariant forall j :: 0 <= j < i ==> Best(chain, j, taints[j]) && 0.0 <= taints[j] <= 0.72
    {
      var node := chain[i];
      var t := Inherited(chain, taints, byId, node.parents);
      StepIsBest(chain, taints, i, t);
      MixedIsLarger(node, t);
      var taint := Clamp(Mixed(node, t));
      byId := byId[node.id := taint];
      taints := taints + [taint];
    }
    forall i | 0 <= i < |taints|
      ensures Balanced(chain, taints, i)
    {
      BestBalances(chain, taints, i);
    }
  }

  /** `safer` is the same chain with no node trusted more freely: it contributes and lets
      through no more than in `chain`. */
  ghost predicate Tamer(safer: seq<Node>, chain: seq<Node>) {
    && |safer| == |chain|
    && forall i :: 0 <= i < |chain| ==>
                     && safer[i].id == chain[i].id && safer[i].parents == chain[i].parents
                     && Own(safer[i]) <= Own(chain[i]) && Decay(safer[i]) <= Decay(chain[i])
  }

  lemma {:induction false} SameResolve(safer: seq<Node>, chain: seq<Node>, i: nat, id: string)
    requires Tamer(safer, chain) && i <= |chain|
    ensures Resolve(safer, i, id) == Resolve(chain, i, id)
  {
    if i > 0 {
      SameResolve(safer, chain, i - 1, id);
    }
  }

  lemma {:induction false} TamerPath(safer: seq<Node>, chain: seq<Node>, p: seq<nat>, i: nat, w: real) returns (u: real)
    requires Tamer(safer, chain) && PathOf(safer, p, i, w)
    ensures 0.0 <= w <= u && PathOf(chain, p, i, u)
    decreases |p|
  {
    u := Own(chain[i]);
    var j, v := LastStep(safer, p, i, w);
    if |p| > 1 {
      var x := TamerPath(safer, chain, p[..|p| - 1], j, v);
      SameResolve(safer, chain, i, chain[j].id);
      ExtendPath(chain, p[..|p| - 1], j, i, x);
      assert p[..|p| - 1] + [i] == p;
      u := Decay(chain[i]) * x;
    } else {
      assert p == [i];
    }
  }

  /** Sanitising a node, or handing it to the trusted controller, raises no node's taint. */
  lemma TamingNeverRaises(safer: seq<Node>, chain: seq<Node>, i: nat, t: real, u: real)
    requires Tamer(safer, chain) && Best(safer, i, t) && Best(chain, i, u)
    ensures t <= u
  {
    var p :| PathOf(safer, p, i, t);
    var w := TamerPath(safer, chain, p, i, t);
  }

  function Trusted(node: Node, trust: string): Node { node.(trust := trust) }

  lemma TrustOrder(node: Node)
    ensures Own(Trusted(node, "trusted-controller")) <= Own(Trusted(node, "sanitized"))
    ensures Own(Trusted(node, "sanitized")) <= Own(Trusted(node, "untrusted"))
    ensures Decay(Trusted(node, "trusted-controller")) <= Decay(Trusted(node, "sanitized"))
    ensures Decay(Trusted(node, "sanitized")) <= Decay(Trusted(node, "untrusted"))
  {
  }

  function Power(x: real, n: nat): real { if n == 0 then 1.0 else x * Power(x, n - 1) }

  /** Taint fades: a path of n hops is worth at most 0.72 times 0.82 to the n. */
  lemma {:induction false} TaintFades(chain: seq<Node>, p: seq<nat>, i: nat, w: real)
    requires PathOf(chain, p, i, w)
    ensures 0.0 <= w <= 0.72 * Power(0.82, |p| - 1)
    decreases |p|
  {
    var j, u := LastStep(chain, p, i, w);
    if |p| > 1 {
      TaintFades(chain, p[..|p| - 1], j, u);
      DecayMonotone(chain[i], u, 0.72 * Power(0.82, |p| - 2));
    }
  }
}
