/**
  Greedy rank simplification (`_rank_simplify` and `_full_rank_simplify` in
  tensorcircuit/simplify.py).

  A pass visits the positions of the node list in order. At each position it
  looks at the legs of the node there, in axis order, and contracts along the
  first non-dangling leg whose contraction the rule admits; then it moves on
  to the next position. The full simplification repeats passes until one
  changes nothing.

  `PassFrom` and `FullRank` specify the two procedures; the methods
  `RankSimplifyPass` and `FullRankSimplify` run them with loops over a
  `TensorNetwork` whose edge table they rewrite in place.
 */
module RankSimplify {
  import opened Shapes
  import opened LexOrder
  import opened Network

  /** The result of one pass: the network, the node list and `is_changed`. */
  datatype PassOut = PassOut(graph: Graph, nodes: seq<Node>, changed: bool)

  /** The contraction test: the new shape is, compared as a tuple, <= the shape
      of `a` or <= the shape of `b` (lexicographic order, not a rank comparison). */
  predicate Rule(edges: EdgeTable, a: Node, b: Node)
    requires Covers(edges, a.legs) && Covers(edges, b.legs)
  {
    var info := InferNewShape(edges, a, b, true);
    LexLe(info.newShape, info.aShape) || LexLe(info.newShape, info.bShape)
  }

  /** Edge `e` joins two nodes of the list, and the rule, applied to its ends in
      the edge's own order (`node1`, `node2`), admits their contraction. */
  ghost predicate Contractible(g: Graph, nodes: seq<Node>, e: EdgeId) {
    && e in g.edges && g.edges[e].node2.Some?
    && HasNode(nodes, g.edges[e].node1) && HasNode(nodes, g.edges[e].node2.value)
    && var a := nodes[IndexOf(nodes, g.edges[e].node1)];
       var b := nodes[IndexOf(nodes, g.edges[e].node2.value)];
       Covers(g.edges, a.legs) && Covers(g.edges, b.legs) && Rule(g.edges, a, b)
  }

  /** No edge of any listed node is contractible: nothing is left for a pass to do. */
  ghost predicate Stable(g: Graph, nodes: seq<Node>) {
    forall p, k :: 0 <= p < |nodes| && 0 <= k < |nodes[p].legs| ==> !Contractible(g, nodes, nodes[p].legs[k])
  }

  /** The first leg of node `i`, from axis `k` on, that is contractible. */
  ghost function FirstContractible(g: Graph, nodes: seq<Node>, i: nat, k: nat): (r: Option<EdgeId>)
    requires i < |nodes| && k <= |nodes[i].legs|
    ensures r.None? ==> forall k' :: k <= k' < |nodes[i].legs| ==> !Contractible(g, nodes, nodes[i].legs[k'])
    ensures r.Some? ==>
              exists k' :: k <= k' < |nodes[i].legs| && nodes[i].legs[k'] == r.value
                           && Contractible(g, nodes, r.value)
                           && forall k'' :: k <= k'' < k' ==> !Contractible(g, nodes, nodes[i].legs[k''])
    decreases |nodes[i].legs| - k
  {
    if k == |nodes[i].legs| then None
    else if Contractible(g, nodes, nodes[i].legs[k]) then Some(nodes[i].legs[k])
    else FirstContractible(g, nodes, i, k + 1)
  }

  /** The body of the outer loop at position `i`: `None` when no leg of node `i`
      is contractible, otherwise the state after contracting along the first one. */
  ghost function Step(g: Graph, nodes: seq<Node>, i: nat): (r: Option<State>)
    requires Valid(g, nodes) && i < |nodes|
    ensures r.None? ==> forall k :: 0 <= k < |nodes[i].legs| ==> !Contractible(g, nodes, nodes[i].legs[k])
    ensures r.Some? ==> |nodes| >= 2 && |r.value.nodes| == |nodes| - 1 && Valid(r.value.graph, r.value.nodes)
  {
    match FirstContractible(g, nodes, i, 0)
    case None => None
    case Some(e) =>
      assert e in nodes[i].legs;
      assert LegOk(g, nodes, nodes[i].id, e);
      var j1 := IndexOf(nodes, g.edges[e].node1);
      var j2 := IndexOf(nodes, g.edges[e].node2.value);
      ContractValid(g, nodes, j1, j2);
      Some(ContractAt(g, nodes, j1, j2))
  }

  /** One pass, from outer position `i` of a loop over `l` positions. */
  ghost function PassFrom(g: Graph, nodes: seq<Node>, i: nat, l: nat, changed: bool): (r: PassOut)
    requires Valid(g, nodes) && i <= l
    ensures Valid(r.graph, r.nodes)
    ensures || (r.changed == changed && r.graph == g && r.nodes == nodes)
            || (r.changed && |r.nodes| < |nodes|)
    ensures |nodes| <= |r.nodes| + (l - i)
    ensures |nodes| > 0 ==> |r.nodes| > 0
    decreases l - i
  {
    if i == l || i >= |nodes| then PassOut(g, nodes, changed)
    else match Step(g, nodes, i)
      case None => PassFrom(g, nodes, i + 1, l, changed)
      case Some(st) => PassFrom(st.graph, st.nodes, i + 1, l, true)
  }

  /** `_rank_simplify(nodes)`: a full pass over the positions the list had at the start. */
  ghost function RankPass(g: Graph, nodes: seq<Node>): (r: PassOut)
    requires Valid(g, nodes)
    ensures Valid(r.graph, r.nodes)
    ensures !r.changed ==> r.graph == g && r.nodes == nodes
    ensures r.changed ==> |r.nodes| < |nodes|
  {
    PassFrom(g, nodes, 0, |nodes|, false)
  }

  /** A pass that reports no change made no contraction at any position. */
  lemma {:induction false} UnchangedPassFrom(g: Graph, nodes: seq<Node>, i: nat)
    requires Valid(g, nodes) && i <= |nodes|
    ensures !PassFrom(g, nodes, i, |nodes|, false).changed ==>
              forall p, k :: i <= p < |nodes| && 0 <= k < |nodes[p].legs| ==> !Contractible(g, nodes, nodes[p].legs[k])
    decreases |nodes| - i
  {
    if i < |nodes| && Step(g, nodes, i).None? {
      UnchangedPassFrom(g, nodes, i + 1);
    }
  }

  /** On a list where nothing is contractible, a pass returns its input unchanged. */
  lemma {:induction false} StablePassFrom(g: Graph, nodes: seq<Node>, i: nat)
    requires Valid(g, nodes) && Stable(g, nodes) && i <= |nodes|
    ensures PassFrom(g, nodes, i, |nodes|, false) == PassOut(g, nodes, false)
    decreases |nodes| - i
  {
    if i < |nodes| {
      assert forall k :: 0 <= k < |nodes[i].legs| ==> !Contractible(g, nodes, nodes[i].legs[k]);
      StablePassFrom(g, nodes, i + 1);
    }
  }

  /** `is_changed` is false exactly when the list has nothing contractible. */
  lemma StableIffUnchanged(g: Graph, nodes: seq<Node>)
    requires Valid(g, nodes)
    ensures Stable(g, nodes) <==> !RankPass(g, nodes).changed
  {
    if Stable(g, nodes) {
      StablePassFrom(g, nodes, 0);
    }
    if !RankPass(g, nodes).changed {
      UnchangedPassFrom(g, nodes, 0);
    }
  }

  /** The outcome of one pass: either nothing was contracted and the network
      and list come back as they were, or the list is strictly shorter; at
      most one contraction happens per position, and a non-empty list stays non-empty. */
  lemma RankPassOutcome(g: Graph, nodes: seq<Node>)
    requires Valid(g, nodes)
    ensures var r := RankPass(g, nodes);
            && Valid(r.graph, r.nodes)
            && (!r.changed <==> r.graph == g && r.nodes == nodes)
            && (r.changed ==> |r.nodes| < |nodes|)
            && (|nodes| > 0 ==> 0 < |r.nodes|)
  {
  }

  /** Leg `k` of node `i` is its first contractible leg. */
  ghost predicate FirstContractibleLeg(g: Graph, nodes: seq<Node>, i: nat, k: nat)
    requires i < |nodes|
  {
    && k < |nodes[i].legs| && Contractible(g, nodes, nodes[i].legs[k])
    && forall k' :: 0 <= k' < k ==> !Contractible(g, nodes, nodes[i].legs[k'])
  }

  /** Positions `j1` and `j2` hold the two ends of edge `e`, in the edge's order. */
  ghost predicate EndsAt(g: Graph, nodes: seq<Node>, e: EdgeId, j1: nat, j2: nat) {
    && e in g.edges && j1 < |nodes| && j2 < |nodes| && j1 != j2
    && nodes[j1].id == g.edges[e].node1 && g.edges[e].node2 == Some(nodes[j2].id)
  }

  /** One step contracts along the first contractible leg of node `i`: the
      merged node of its two ends takes the earlier of their positions, the
      later position is removed and every other node keeps its relative order. */
  lemma StepIsOneContraction(g: Graph, nodes: seq<Node>, i: nat)
    requires Valid(g, nodes) && i < |nodes| && Step(g, nodes, i).Some?
    ensures exists k: nat, j1: nat, j2: nat ::
              && FirstContractibleLeg(g, nodes, i, k)
              && EndsAt(g, nodes, nodes[i].legs[k], j1, j2)
              && (i == j1 || i == j2)
              && Step(g, nodes, i).value == ContractAt(g, nodes, j1, j2)
  {
    var e := FirstContractible(g, nodes, i, 0).value;
    var k :| 0 <= k < |nodes[i].legs| && nodes[i].legs[k] == e && Contractible(g, nodes, e)
             && forall k' :: 0 <= k' < k ==> !Contractible(g, nodes, nodes[i].legs[k']);
    assert FirstContractibleLeg(g, nodes, i, k);
    assert e in nodes[i].legs;
    assert LegOk(g, nodes, nodes[i].id, e);
    var j1 := IndexOf(nodes, g.edges[e].node1);
    var j2 := IndexOf(nodes, g.edges[e].node2.value);
    assert EndsAt(g, nodes, e, j1, j2);
    assert Attached(g.edges[e], nodes[i].id);
    assert i == j1 || i == j2;
    assert Step(g, nodes, i).value == ContractAt(g, nodes, j1, j2);
  }

  /** `_full_rank_simplify(nodes)`: passes until one reports no change. The
      result is well formed, has nothing contractible, and is no longer than the input. */
  ghost function FullRank(g: Graph, nodes: seq<Node>): (r: State)
    requires Valid(g, nodes)
    ensures Valid(r.graph, r.nodes) && Stable(r.graph, r.nodes)
    ensures |r.nodes| <= |nodes| && (|nodes| > 0 ==> |r.nodes| > 0)
    decreases |nodes|
  {
    var p := RankPass(g, nodes);
    if p.changed then FullRank(p.graph, p.nodes)
    else
      StableIffUnchanged(g, nodes);
      State(p.graph, p.nodes)
  }

  /** The number of passes `_full_rank_simplify` runs: at most the length of a
      non-empty list, and exactly one on an empty list. */
  ghost function PassCount(g: Graph, nodes: seq<Node>): (n: nat)
    requires Valid(g, nodes)
    ensures 1 <= n && n <= if |nodes| == 0 then 1 else |nodes|
    decreases |nodes|
  {
    var p := RankPass(g, nodes);
    if p.changed then 1 + PassCount(p.graph, p.nodes) else 1
  }

  lemma RaisedLegs()
    ensures Rest([0, 1, 2], [2, 3, 4]) == [0, 1] && Rest([2, 3, 4], [0, 1, 2]) == [3, 4]
  {
    assert Rest([2], [2, 3, 4]) == [];
    assert Rest([1, 2], [2, 3, 4]) == [1];
    assert Rest([4], [0, 1, 2]) == [4];
    assert Rest([3, 4], [0, 1, 2]) == [3, 4];
  }

  lemma RaisedShapes(edges: EdgeTable, a: Node, b: Node)
    requires edges == map[0 := Edge(2, 0, None), 1 := Edge(2, 0, None), 2 := Edge(3, 0, Some(1)),
                          3 := Edge(2, 1, None), 4 := Edge(2, 1, None)]
    requires a == Node(0, [0, 1, 2]) && b == Node(1, [2, 3, 4])
    ensures InferNewShape(edges, a, b, true) == ShapeWithOld([2, 2, 2, 2], [2, 2, 3], [3, 2, 2])
  {
    RaisedLegs();
    assert Dims(edges, [0, 1]) == [2, 2];
    assert Dims(edges, [3, 4]) == [2, 2];
    assert Dims(edges, a.legs) == [2, 2, 3];
    assert Dims(edges, b.legs) == [3, 2, 2];
  }

  /** The rule compares shapes as tuples, so it can admit a contraction whose
      result has a higher rank than both nodes: (2, 2, 3) and (3, 2, 2) sharing
      the edge of dimension 3 give (2, 2, 2, 2), which is below (2, 2, 3). */
  lemma RuleCanRaiseRank()
    ensures var edges := map[0 := Edge(2, 0, None), 1 := Edge(2, 0, None), 2 := Edge(3, 0, Some(1)),
                             3 := Edge(2, 1, None), 4 := Edge(2, 1, None)];
            var a, b := Node(0, [0, 1, 2]), Node(1, [2, 3, 4]);
            && Rule(edges, a, b)
            && |InferNewShape(edges, a, b, false).newShape| > |a.legs|
            && |InferNewShape(edges, a, b, false).newShape| > |b.legs|
  {
    var edges := map[0 := Edge(2, 0, None), 1 := Edge(2, 0, None), 2 := Edge(3, 0, Some(1)),
                     3 := Edge(2, 1, None), 4 := Edge(2, 1, None)];
    var a, b := Node(0, [0, 1, 2]), Node(1, [2, 3, 4]);
    RaisedShapes(edges, a, b);
    IncludeOldKeepsNew(edges, a, b);
    assert [2, 2, 2, 2][1..] == [2, 2, 2] && [2, 2, 3][1..] == [2, 3];
    assert [2, 2, 2][1..] == [2, 2] && [2, 3][1..] == [3];
    assert LexLe([2, 2], [3]);
    assert LexLe([2, 2, 2, 2], [2, 2, 3]);
  }

  /** Every edge of the table has dimension `d`, as in a circuit on qubits. */
  predicate Uniform(edges: EdgeTable, d: nat) {
    forall e :: e in edges ==> edges[e].dim == d
  }

  lemma DimsUniform(edges: EdgeTable, legs: seq<EdgeId>, d: nat)
    requires Covers(edges, legs) && Uniform(edges, d)
    ensures Dims(edges, legs) == Repeat(d, |legs|)
  {
    var s := Dims(edges, legs);
    forall k | 0 <= k < |legs| ensures s[k] == d {
      assert legs[k] in legs;
    }
  }

  /** When all dimensions are equal the rule does compare ranks: it admits a
      contraction exactly when the new rank is at most that of one of the two
      nodes, that is when one of them shares at least half of its legs. */
  lemma UniformRuleIsRank(edges: EdgeTable, a: Node, b: Node, d: nat)
    requires Covers(edges, a.legs) && Covers(edges, b.legs) && Uniform(edges, d)
    requires DistinctLegs(a.legs) && DistinctLegs(b.legs)
    ensures Rule(edges, a, b) <==> |NewLegs(a, b)| <= |a.legs| || |NewLegs(a, b)| <= |b.legs|
    ensures Rule(edges, a, b) <==> |b.legs| <= 2 * |Shared(a, b)| || |a.legs| <= 2 * |Shared(a, b)|
  {
    var info := InferNewShape(edges, a, b, true);
    DimsUniform(edges, NewLegs(a, b), d);
    DimsUniform(edges, a.legs, d);
    DimsUniform(edges, b.legs, d);
    LexLeRepeat(d, |NewLegs(a, b)|, |a.legs|);
    LexLeRepeat(d, |NewLegs(a, b)|, |b.legs|);
    NewShapeRank(edges, a, b);
  }

  /** What the inner loop finds at leg `k` of node `i`, whose ends sit at
      positions `j1` and `j2`: the leg is contractible exactly when the rule
      admits the two ends, and then the step contracts them. */
  lemma JoinedLeg(g: Graph, nodes: seq<Node>, i: nat, k: nat, j1: nat, j2: nat)
    requires Valid(g, nodes) && i < |nodes| && k < |nodes[i].legs|
    requires FirstContractible(g, nodes, i, k) == FirstContractible(g, nodes, i, 0)
    requires EndsAt(g, nodes, nodes[i].legs[k], j1, j2)
    ensures Covers(g.edges, nodes[j1].legs) && Covers(g.edges, nodes[j2].legs)
    ensures Contractible(g, nodes, nodes[i].legs[k]) <==> Rule(g.edges, nodes[j1], nodes[j2])
    ensures Rule(g.edges, nodes[j1], nodes[j2]) ==> Step(g, nodes, i) == Some(ContractAt(g, nodes, j1, j2))
  {
    assert HasNode(nodes, nodes[j1].id) && HasNode(nodes, nodes[j2].id);
    assert IndexOf(nodes, nodes[j1].id) == j1 && IndexOf(nodes, nodes[j2].id) == j2;
  }

  /** The inner loop of `_rank_simplify` at position `i`: walks the legs of the
      node there and contracts along the first contractible one, if any. */
  method ContractFirstLeg(net: TensorNetwork, nodes: seq<Node>, i: nat) returns (res: seq<Node>, contracted: bool)
    requires Valid(net.Current(), nodes) && i < |nodes|
    modifies net
    ensures contracted <==> Step(old(net.Current()), nodes, i).Some?
    ensures contracted ==> State(net.Current(), res) == Step(old(net.Current()), nodes, i).value
    ensures !contracted ==> net.Current() == old(net.Current()) && res == nodes
  {
    res, contracted := nodes, false;
    var n := nodes[i];
    ghost var g := net.Current();
    for k := 0 to |n.legs|
      invariant net.Current() == g && res == nodes && !contracted
      invariant FirstContractible(g, nodes, i, k) == FirstContractible(g, nodes, i, 0)
    {
      var e := n.legs[k];
      assert e in n.legs;
      assert LegOk(g, nodes, n.id, e);
      var ed := net.edges[e];
      if ed.node2.Some? {
        assert HasNode(nodes, ed.node1) && HasNode(nodes, ed.node2.value);
        var j1 := IndexOf(nodes, ed.node1);
        var j2 := IndexOf(nodes, ed.node2.value);
        JoinedLeg(g, nodes, i, k, j1, j2);
        var a, b := nodes[j1], nodes[j2];
        var info := InferNewShape(net.edges, a, b, true);
        if LexLe(info.newShape, info.aShape) || LexLe(info.newShape, info.bShape) {
          var c := net.PseudoContractBetween(a, b);
          res := RemoveAt(nodes[Min(j1, j2) := c], Max(j1, j2));
          contracted := true;
          assert State(net.Current(), res) == ContractAt(g, nodes, j1, j2);
          return;
        }
      }
    }
  }

  /** One pass of `_rank_simplify`, on the list and the network's edge table in place. */
  method RankSimplifyPass(net: TensorNetwork, nodes0: seq<Node>) returns (nodes: seq<Node>, isChanged: bool)
    requires Valid(net.Current(), nodes0)
    modifies net
    ensures PassOut(net.Current(), nodes, isChanged) == RankPass(old(net.Current()), nodes0)
  {
    isChanged := false;
    nodes := nodes0;
    var l := |nodes|;
    for i := 0 to l
      invariant Valid(net.Current(), nodes)
      invariant PassFrom(net.Current(), nodes, i, l, isChanged) == RankPass(old(net.Current()), nodes0)
    {
      if i < |nodes| {
        var contracted;
        nodes, contracted := ContractFirstLeg(net, nodes, i);
        if contracted {
          isChanged := true;
        }
      } else {
        break;
      }
    }
  }

  /** `_full_rank_simplify`: repeats passes while the last one changed something. */
  method FullRankSimplify(net: TensorNetwork, nodes0: seq<Node>) returns (nodes: seq<Node>, ghost passes: nat)
    requires Valid(net.Current(), nodes0)
    modifies net
    ensures State(net.Current(), nodes) == FullRank(old(net.Current()), nodes0)
    ensures Stable(net.Current(), nodes) && |nodes| <= |nodes0|
    ensures passes == PassCount(old(net.Current()), nodes0)
  {
    var isChanged;
    nodes, isChanged := RankSimplifyPass(net, nodes0);
    passes := 1;
    while isChanged
      invariant Valid(net.Current(), nodes)
      invariant FullRank(old(net.Current()), nodes0)
                  == if isChanged then FullRank(net.Current(), nodes) else State(net.Current(), nodes)
      invariant PassCount(old(net.Current()), nodes0)
                  == passes + if isChanged then PassCount(net.Current(), nodes) else 0
      decreases |nodes| + if isChanged then 1 else 0
    {
      nodes, isChanged := RankSimplifyPass(net, nodes);
      passes := passes + 1;
    }
  }
}
