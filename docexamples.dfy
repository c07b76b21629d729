/**
  The two examples of the doc comment of `_full_rank_simplify`
  (tensorcircuit/simplify.py), worked through the model.

  Every edge has dimension 2. Edge `x[i] ^ y[j]` has `x` as its first end
  and `y` as its second; a leg that is not joined dangles from its node.
 */
module DocExamples {
  import opened Shapes
  import opened LexOrder
  import opened Network
  import opened RankSimplify

  // ---- General steps used by both examples ----

  /** A leg that dangles is passed over in the search for a contractible leg. */
  lemma SkipDangling(g: Graph, nodes: seq<Node>, i: nat, k: nat)
    requires i < |nodes| && k < |nodes[i].legs|
    requires nodes[i].legs[k] in g.edges && g.edges[nodes[i].legs[k]].node2.None?
    ensures FirstContractible(g, nodes, i, k) == FirstContractible(g, nodes, i, k + 1)
  {
    assert !Contractible(g, nodes, nodes[i].legs[k]);
  }

  /** The step at position `i` contracts along leg `k` (one of the first three)
      when the legs before it dangle and, all dimensions being equal, the
      contraction of its ends does not raise the rank. */
  lemma StepAlong(g: Graph, nodes: seq<Node>, i: nat, k: nat, j1: nat, j2: nat, d: nat, c: Node)
    requires Valid(g, nodes) && Uniform(g.edges, d) && i < |nodes| && k < |nodes[i].legs| && k <= 2
    requires forall k' :: 0 <= k' < k ==> nodes[i].legs[k'] in g.edges && g.edges[nodes[i].legs[k']].node2.None?
    requires EndsAt(g, nodes, nodes[i].legs[k], j1, j2)
    requires NewNode(g, nodes[j1], nodes[j2]) == c
    requires |c.legs| <= |nodes[j1].legs| || |c.legs| <= |nodes[j2].legs|
    ensures Step(g, nodes, i) == Some(ContractAt(g, nodes, j1, j2))
  {
    SkipPrefix(g, nodes, i, k);
    JoinedLeg(g, nodes, i, k, j1, j2);
    RuleByNewLegs(g.edges, nodes[j1], nodes[j2], d);
  }

  /** Up to three dangling legs are passed over in the search. */
  lemma SkipPrefix(g: Graph, nodes: seq<Node>, i: nat, k: nat)
    requires i < |nodes| && k <= |nodes[i].legs| && k <= 2
    requires forall k' :: 0 <= k' < k ==> nodes[i].legs[k'] in g.edges && g.edges[nodes[i].legs[k']].node2.None?
    ensures FirstContractible(g, nodes, i, 0) == FirstContractible(g, nodes, i, k)
  {
    if k > 0 {
      SkipDangling(g, nodes, i, 0);
    }
    if k > 1 {
      SkipDangling(g, nodes, i, 1);
    }
  }

  /** The list and the network that a contraction produces, position by position. */
  lemma ContractAtIs(g: Graph, nodes: seq<Node>, j1: nat, j2: nat, g': Graph, c: Node, nodes': seq<Node>)
    requires j1 < |nodes| && j2 < |nodes| && j1 != j2
    requires ContractGraph(g, nodes[j1], nodes[j2]) == g' && NewNode(g, nodes[j1], nodes[j2]) == c
    requires |nodes'| == |nodes| - 1 && nodes'[Min(j1, j2)] == c
    requires forall q :: 0 <= q < |nodes'| && q != Min(j1, j2) ==> nodes'[q] == nodes[if q < Max(j1, j2) then q else q + 1]
    ensures ContractAt(g, nodes, j1, j2) == State(g', nodes')
  {
    assert ContractAt(g, nodes, j1, j2).nodes == nodes';
  }

  /** Contracting the first node of five with the third. */
  lemma ContractFirstWithThird(g: Graph, a: Node, b: Node, c: Node, d: Node, e: Node, g': Graph, n: Node)
    requires ContractGraph(g, a, c) == g' && NewNode(g, a, c) == n
    ensures ContractAt(g, [a, b, c, d, e], 0, 2) == State(g', [n, b, d, e])
  {
    ContractAtIs(g, [a, b, c, d, e], 0, 2, g', n, [n, b, d, e]);
  }

  /** The network a contraction produces, described by the edges it removes,
      the edges it re-attaches and the edges it keeps. */
  lemma ContractGraphIs(g: Graph, a: Node, b: Node, s: set<EdgeId>, g': Graph)
    requires Shared(a, b) == s && g'.next == g.next + 1 && g'.edges.Keys == g.edges.Keys - s
    requires forall e :: e in g'.edges && (e in a.legs || e in b.legs) ==>
               e in g.edges && g'.edges[e] == Rewire(g.edges[e], a.id, b.id, g.next)
    requires forall e :: e in g'.edges && e !in a.legs && e !in b.legs ==> e in g.edges && g'.edges[e] == g.edges[e]
    ensures ContractGraph(g, a, b) == g'
  {
    assert ContractGraph(g, a, b).edges == g'.edges;
  }

  /** The node a contraction creates, from the legs each side keeps. */
  lemma NewNodeIs(g: Graph, a: Node, b: Node, x: seq<EdgeId>, y: seq<EdgeId>, c: Node)
    requires Rest(a.legs, b.legs) == x && Rest(b.legs, a.legs) == y
    requires c.id == g.next && c.legs == x + y
    ensures NewNode(g, a, b) == c
  {
  }

  /** The step at position `i` does nothing when no leg is contractible. */
  lemma NoStep(g: Graph, nodes: seq<Node>, i: nat)
    requires Valid(g, nodes) && i < |nodes|
    requires forall k :: 0 <= k < |nodes[i].legs| ==> !Contractible(g, nodes, nodes[i].legs[k])
    ensures Step(g, nodes, i) == None
  {
  }

  /** A pass over three nodes that contracts at position 0, leaving two, and
      does nothing at position 1. */
  lemma PassContractFirst(g0: Graph, n0: seq<Node>, g1: Graph, n1: seq<Node>)
    requires Valid(g0, n0) && |n0| == 3 && Step(g0, n0, 0) == Some(State(g1, n1))
    requires Valid(g1, n1) && Step(g1, n1, 1) == None
    ensures RankPass(g0, n0) == PassOut(g1, n1, true)
  {
  }

  /** Two passes, the second of which changes nothing. */
  lemma FullRankTwoPasses(g0: Graph, n0: seq<Node>, g1: Graph, n1: seq<Node>)
    requires Valid(g0, n0) && RankPass(g0, n0) == PassOut(g1, n1, true)
    requires Valid(g1, n1) && RankPass(g1, n1) == PassOut(g1, n1, false)
    ensures FullRank(g0, n0) == State(g1, n1) && PassCount(g0, n0) == 2
  {
    FullRankChanged(g0, n0, g1, n1);
    FullRankUnchanged(g1, n1);
  }

  /** `Valid`, checked leg by leg. */
  lemma ValidByLegs(g: Graph, nodes: seq<Node>)
    requires forall p, q :: 0 <= p < q < |nodes| ==> nodes[p].id != nodes[q].id
    requires forall p :: 0 <= p < |nodes| ==> nodes[p].id < g.next && DistinctLegs(nodes[p].legs)
    requires forall p, k :: 0 <= p < |nodes| && 0 <= k < |nodes[p].legs| ==> LegOk(g, nodes, nodes[p].id, nodes[p].legs[k])
    ensures Valid(g, nodes)
  {
    forall p, e | 0 <= p < |nodes| && e in nodes[p].legs ensures LegOk(g, nodes, nodes[p].id, e) {
      var k :| 0 <= k < |nodes[p].legs| && nodes[p].legs[k] == e;
    }
  }

  /** A contraction at position `i` moves the pass on to position `i + 1` of the new list. */
  lemma PassFromContract(g: Graph, n: seq<Node>, i: nat, l: nat, changed: bool, g': Graph, n': seq<Node>)
    requires Valid(g, n) && i < l && i < |n| && Step(g, n, i) == Some(State(g', n'))
    ensures Valid(g', n') && PassFrom(g, n, i, l, changed) == PassFrom(g', n', i + 1, l, true)
  {
  }

  /** Past the end of the list a pass reports what it has. */
  lemma PassFromEnd(g: Graph, n: seq<Node>, i: nat, l: nat, changed: bool)
    requires Valid(g, n) && i <= l && |n| <= i
    ensures PassFrom(g, n, i, l, changed) == PassOut(g, n, changed)
  {
  }

  /** A pass over five nodes that contracts at positions 0, 1 and 2 and stops
      once the list has two nodes left. */
  lemma PassContractThree(g0: Graph, n0: seq<Node>, g1: Graph, n1: seq<Node>,
                          g2: Graph, n2: seq<Node>, g3: Graph, n3: seq<Node>)
    requires Valid(g0, n0) && |n0| == 5 && Step(g0, n0, 0) == Some(State(g1, n1))
    requires Valid(g1, n1) && |n1| == 4 && Step(g1, n1, 1) == Some(State(g2, n2))
    requires Valid(g2, n2) && |n2| == 3 && Step(g2, n2, 2) == Some(State(g3, n3)) && |n3| == 2
    ensures RankPass(g0, n0) == PassOut(g3, n3, true)
  {
    PassFromContract(g0, n0, 0, 5, false, g1, n1);
    PassFromContract(g1, n1, 1, 5, true, g2, n2);
    PassFromContract(g2, n2, 2, 5, true, g3, n3);
    PassFromEnd(g3, n3, 3, 5, true);
  }

  /** A pass over two nodes that contracts at position 0. */
  lemma PassContractOne(g0: Graph, n0: seq<Node>, g1: Graph, n1: seq<Node>)
    requires Valid(g0, n0) && |n0| == 2 && Step(g0, n0, 0) == Some(State(g1, n1))
    ensures RankPass(g0, n0) == PassOut(g1, n1, true)
  {
  }

  /** A pass that changes something is followed by the passes of what it produced. */
  lemma FullRankChanged(g0: Graph, n0: seq<Node>, g1: Graph, n1: seq<Node>)
    requires Valid(g0, n0) && RankPass(g0, n0) == PassOut(g1, n1, true)
    ensures Valid(g1, n1)
    ensures FullRank(g0, n0) == FullRank(g1, n1) && PassCount(g0, n0) == 1 + PassCount(g1, n1)
  {
  }

  /** A pass that changes nothing is the last one. */
  lemma FullRankUnchanged(g: Graph, n: seq<Node>)
    requires Valid(g, n) && RankPass(g, n) == PassOut(g, n, false)
    ensures FullRank(g, n) == State(g, n) && PassCount(g, n) == 1
  {
  }

  /** Three passes, the third of which changes nothing. */
  lemma FullRankThreePasses(g0: Graph, n0: seq<Node>, g1: Graph, n1: seq<Node>, g2: Graph, n2: seq<Node>)
    requires Valid(g0, n0) && RankPass(g0, n0) == PassOut(g1, n1, true)
    requires Valid(g1, n1) && RankPass(g1, n1) == PassOut(g2, n2, true)
    requires Valid(g2, n2) && RankPass(g2, n2) == PassOut(g2, n2, false)
    ensures FullRank(g0, n0) == State(g2, n2) && PassCount(g0, n0) == 3
  {
    FullRankChanged(g0, n0, g1, n1);
    FullRankChanged(g1, n1, g2, n2);
    FullRankUnchanged(g2, n2);
  }

  /** A list is stable when its only joining edge is not contractible. */
  lemma StableWithOneJoin(g: Graph, nodes: seq<Node>, e: EdgeId)
    requires forall p, k :: 0 <= p < |nodes| && 0 <= k < |nodes[p].legs| ==>
               nodes[p].legs[k] == e || (nodes[p].legs[k] in g.edges && g.edges[nodes[p].legs[k]].node2.None?)
    requires !Contractible(g, nodes, e)
    ensures Stable(g, nodes)
  {
  }

  /** Under uniform dimensions the rule admits a contraction that does not raise the rank. */
  lemma RuleByNewLegs(edges: EdgeTable, a: Node, b: Node, d: nat)
    requires Covers(edges, a.legs) && Covers(edges, b.legs) && Uniform(edges, d)
    requires DistinctLegs(a.legs) && DistinctLegs(b.legs)
    requires |NewLegs(a, b)| <= |a.legs| || |NewLegs(a, b)| <= |b.legs|
    ensures Rule(edges, a, b)
  {
    UniformRuleIsRank(edges, a, b, d);
  }

  // ---- f, g, h: one contraction, then two nodes remain ----

  const FghGraph := Graph(map[0 := Edge(2, 0, None), 1 := Edge(2, 0, Some(1)), 2 := Edge(2, 1, None),
                              3 := Edge(2, 1, Some(2)), 4 := Edge(2, 1, None), 5 := Edge(2, 2, None),
                              6 := Edge(2, 2, None), 7 := Edge(2, 2, None)], 3)
  const NodeF := Node(0, [0, 1])
  const NodeG := Node(1, [1, 2, 3, 4])
  const NodeH := Node(2, [5, 3, 6, 7])
  const NodeFG := Node(3, [0, 2, 3, 4])

  lemma FghValid()
    ensures Valid(FghGraph, [NodeF, NodeG, NodeH]) && Uniform(FghGraph.edges, 2)
  {
    var nodes := [NodeF, NodeG, NodeH];
    FghLegsOk(0);
    FghLegsOk(1);
    FghLegsOk(2);
    ValidByLegs(FghGraph, nodes);
  }

  lemma FghLegsOk(p: nat)
    requires p < 3
    ensures var nodes := [NodeF, NodeG, NodeH];
            forall k :: 0 <= k < |nodes[p].legs| ==> LegOk(FghGraph, nodes, nodes[p].id, nodes[p].legs[k])
  {
    FghHolds();
  }

  lemma FghHolds()
    ensures var nodes := [NodeF, NodeG, NodeH];
            Holds(nodes, 0, 1) && Holds(nodes, 1, 1) && Holds(nodes, 1, 3) && Holds(nodes, 2, 3)
  {
    var nodes := [NodeF, NodeG, NodeH];
    assert 1 in nodes[0].legs && 1 in nodes[1].legs && 3 in nodes[1].legs && 3 in nodes[2].legs;
  }

  lemma FghContracted()
    ensures NewNode(FghGraph, NodeF, NodeG) == NodeFG
  {
    FghRestF();
    FghRestG();
    assert NodeFG.legs == [0] + [2, 3, 4];
    NewNodeIs(FghGraph, NodeF, NodeG, [0], [2, 3, 4], NodeFG);
  }

  lemma FghRestF()
    ensures Rest(NodeF.legs, NodeG.legs) == [0]
  {
    assert Rest([1], NodeG.legs) == [];
  }

  lemma FghRestG()
    ensures Rest(NodeG.legs, NodeF.legs) == [2, 3, 4]
  {
    assert Rest([4], NodeF.legs) == [4];
    assert Rest([3, 4], NodeF.legs) == [3, 4];
    assert Rest([2, 3, 4], NodeF.legs) == [2, 3, 4];
    assert Rest(NodeG.legs, NodeF.legs) == [2, 3, 4];
  }

  /** The network after contracting f with g: edge 1 is gone, the other edges
      of f and g hang from fg, and only edge 3 still joins two nodes. */
  const FghGraph1 := Graph(map[0 := Edge(2, 3, None), 2 := Edge(2, 3, None), 3 := Edge(2, 3, Some(2)),
                               4 := Edge(2, 3, None), 5 := Edge(2, 2, None), 6 := Edge(2, 2, None),
                               7 := Edge(2, 2, None)], 4)

  lemma FghAfter()
    ensures ContractGraph(FghGraph, NodeF, NodeG) == FghGraph1
  {
    Fgh1Shared();
    Fgh1Moved();
    Fgh1Kept();
    ContractGraphIs(FghGraph, NodeF, NodeG, {1}, FghGraph1);
  }

  lemma Fgh1Shared()
    ensures Shared(NodeF, NodeG) == {1} && FghGraph1.edges.Keys == FghGraph.edges.Keys - {1}
  {
    assert 1 in NodeF.legs && 1 in NodeG.legs;
  }

  lemma Fgh1Moved()
    ensures forall e :: e in FghGraph1.edges && (e in NodeF.legs || e in NodeG.legs) ==>
              e in FghGraph.edges && FghGraph1.edges[e] == Rewire(FghGraph.edges[e], NodeF.id, NodeG.id, FghGraph.next)
  {
  }

  lemma Fgh1Kept()
    ensures forall e :: e in FghGraph1.edges && e !in NodeF.legs && e !in NodeG.legs ==> e in FghGraph.edges && FghGraph1.edges[e] == FghGraph.edges[e]
  {
  }

  lemma FghValid1()
    ensures Valid(FghGraph1, [NodeFG, NodeH]) && Uniform(FghGraph1.edges, 2)
  {
    var nodes := [NodeFG, NodeH];
    assert Holds(nodes, 3, 3) && Holds(nodes, 2, 3) by { assert 3 in nodes[0].legs && 3 in nodes[1].legs; }
    assert forall k :: 0 <= k < |NodeFG.legs| ==> LegOk(FghGraph1, nodes, 3, NodeFG.legs[k]);
    assert forall k :: 0 <= k < |NodeH.legs| ==> LegOk(FghGraph1, nodes, 2, NodeH.legs[k]);
    ValidByLegs(FghGraph1, nodes);
  }

  lemma FghShared3()
    ensures Shared(NodeFG, NodeH) == {3}
  {
    assert 3 in NodeFG.legs && 3 in NodeH.legs;
  }

  lemma FghRule3(edges: EdgeTable)
    requires Uniform(edges, 2) && Covers(edges, NodeFG.legs) && Covers(edges, NodeH.legs)
    ensures !Rule(edges, NodeFG, NodeH)
  {
    FghShared3();
    UniformRuleIsRank(edges, NodeFG, NodeH, 2);
  }

  lemma FghEdge3(g: Graph)
    requires 3 in g.edges && g.edges[3] == Edge(2, 3, Some(2))
    requires Uniform(g.edges, 2) && Covers(g.edges, NodeFG.legs) && Covers(g.edges, NodeH.legs)
    ensures !Contractible(g, [NodeFG, NodeH], 3)
  {
    var nodes := [NodeFG, NodeH];
    assert HasNode(nodes, 3) && HasNode(nodes, 2) by { assert nodes[0].id == 3 && nodes[1].id == 2; }
    assert IndexOf(nodes, 3) == 0 && IndexOf(nodes, 2) == 1;
    FghRule3(g.edges);
  }

  lemma FghStable1()
    ensures Stable(FghGraph1, [NodeFG, NodeH])
  {
    FghValid1();
    FghEdge3(FghGraph1);
    FghOneJoin();
    StableWithOneJoin(FghGraph1, [NodeFG, NodeH], 3);
  }

  lemma FghOneJoin()
    ensures var nodes := [NodeFG, NodeH];
            forall p, k :: 0 <= p < |nodes| && 0 <= k < |nodes[p].legs| ==>
              nodes[p].legs[k] == 3 || (nodes[p].legs[k] in FghGraph1.edges && FghGraph1.edges[nodes[p].legs[k]].node2.None?)
  {
  }

  lemma FghStep0()
    ensures Valid(FghGraph, [NodeF, NodeG, NodeH])
    ensures Step(FghGraph, [NodeF, NodeG, NodeH], 0) == Some(ContractAt(FghGraph, [NodeF, NodeG, NodeH], 0, 1))
  {
    FghValid();
    FghLeg1();
    FghContracted();
    StepAlong(FghGraph, [NodeF, NodeG, NodeH], 0, 1, 0, 1, 2, NodeFG);
  }

  lemma FghLeg1()
    ensures EndsAt(FghGraph, [NodeF, NodeG, NodeH], 1, 0, 1)
    ensures forall k' :: 0 <= k' < 1 ==> NodeF.legs[k'] in FghGraph.edges && FghGraph.edges[NodeF.legs[k']].node2.None?
  {
  }

  lemma FghContractAt()
    ensures ContractAt(FghGraph, [NodeF, NodeG, NodeH], 0, 1) == State(FghGraph1, [NodeFG, NodeH])
  {
    FghContracted();
    FghAfter();
  }

  lemma FghStep1()
    ensures Valid(FghGraph1, [NodeFG, NodeH])
    ensures Step(FghGraph1, [NodeFG, NodeH], 1) == None
  {
    FghValid1();
    FghStable1();
    NoStep(FghGraph1, [NodeFG, NodeH], 1);
  }

  lemma FghPass1()
    ensures Valid(FghGraph, [NodeF, NodeG, NodeH])
    ensures RankPass(FghGraph, [NodeF, NodeG, NodeH]) == PassOut(FghGraph1, [NodeFG, NodeH], true)
  {
    FghStep0();
    FghContractAt();
    FghStep1();
    PassContractFirst(FghGraph, [NodeF, NodeG, NodeH], FghGraph1, [NodeFG, NodeH]);
  }

  lemma FghPass2()
    ensures Valid(FghGraph1, [NodeFG, NodeH])
    ensures RankPass(FghGraph1, [NodeFG, NodeH]) == PassOut(FghGraph1, [NodeFG, NodeH], false)
  {
    FghValid1();
    FghStable1();
    StableIffUnchanged(FghGraph1, [NodeFG, NodeH]);
    RankPassOutcome(FghGraph1, [NodeFG, NodeH]);
  }

  /** `_full_rank_simplify([f, g, h])`: the first pass contracts f with g, the
      second changes nothing, and two nodes of shape (2, 2, 2, 2) remain. */
  lemma FghExample()
    ensures && Valid(FghGraph, [NodeF, NodeG, NodeH])
            && FullRank(FghGraph, [NodeF, NodeG, NodeH]) == State(FghGraph1, [NodeFG, NodeH])
            && PassCount(FghGraph, [NodeF, NodeG, NodeH]) == 2
            && Covers(FghGraph1.edges, NodeFG.legs) && Dims(FghGraph1.edges, NodeFG.legs) == [2, 2, 2, 2]
  {
    FghPass1();
    FghPass2();
    FullRankTwoPasses(FghGraph, [NodeF, NodeG, NodeH], FghGraph1, [NodeFG, NodeH]);
    FghShape();
  }

  lemma FghShape()
    ensures Covers(FghGraph1.edges, NodeFG.legs) && Dims(FghGraph1.edges, NodeFG.legs) == [2, 2, 2, 2]
  {
    FghValid1();
    DimsUniform(FghGraph1.edges, NodeFG.legs, 2);
  }

  // ---- a, b, c, d, e: four contractions in two passes, one node remains ----

  const Abcde0 := Graph(map[0 := Edge(2, 0, None), 1 := Edge(2, 0, Some(2)), 2 := Edge(2, 1, None),
                            3 := Edge(2, 1, Some(2)), 4 := Edge(2, 2, Some(3)), 5 := Edge(2, 2, Some(3)),
                            6 := Edge(2, 3, None), 7 := Edge(2, 3, None), 8 := Edge(2, 3, Some(4)),
                            9 := Edge(2, 3, None), 10 := Edge(2, 4, None)], 5)
  const NodeA := Node(0, [0, 1])
  const NodeB := Node(1, [2, 3])
  const NodeC := Node(2, [1, 3, 4, 5])
  const NodeD := Node(3, [4, 5, 6, 7, 8, 9])
  const NodeE := Node(4, [8, 10])

  /** After contracting a with c. */
  const Abcde1 := Graph(map[0 := Edge(2, 5, None), 2 := Edge(2, 1, None),
                            3 := Edge(2, 1, Some(5)), 4 := Edge(2, 5, Some(3)), 5 := Edge(2, 5, Some(3)),
                            6 := Edge(2, 3, None), 7 := Edge(2, 3, None), 8 := Edge(2, 3, Some(4)),
                            9 := Edge(2, 3, None), 10 := Edge(2, 4, None)], 6)
  const NodeAC := Node(5, [0, 3, 4, 5])

  /** After contracting b with ac. */
  const Abcde2 := Graph(map[0 := Edge(2, 6, None), 2 := Edge(2, 6, None),
                            4 := Edge(2, 6, Some(3)), 5 := Edge(2, 6, Some(3)),
                            6 := Edge(2, 3, None), 7 := Edge(2, 3, None), 8 := Edge(2, 3, Some(4)),
                            9 := Edge(2, 3, None), 10 := Edge(2, 4, None)], 7)
  const NodeBAC := Node(6, [2, 0, 4, 5])

  /** After contracting d with e. */
  const Abcde3 := Graph(map[0 := Edge(2, 6, None), 2 := Edge(2, 6, None),
                            4 := Edge(2, 6, Some(7)), 5 := Edge(2, 6, Some(7)),
                            6 := Edge(2, 7, None), 7 := Edge(2, 7, None),
                            9 := Edge(2, 7, None), 10 := Edge(2, 7, None)], 8)
  const NodeDE := Node(7, [4, 5, 6, 7, 9, 10])

  /** After contracting bac with de. */
  const Abcde4 := Graph(map[0 := Edge(2, 8, None), 2 := Edge(2, 8, None),
                            6 := Edge(2, 8, None), 7 := Edge(2, 8, None),
                            9 := Edge(2, 8, None), 10 := Edge(2, 8, None)], 9)
  const NodeAll := Node(8, [2, 0, 6, 7, 9, 10])

  lemma AbcdeHolds()
    ensures var nodes := [NodeA, NodeB, NodeC, NodeD, NodeE];
            && Holds(nodes, 0, 1) && Holds(nodes, 2, 1) && Holds(nodes, 1, 3) && Holds(nodes, 2, 3)
            && Holds(nodes, 2, 4) && Holds(nodes, 3, 4) && Holds(nodes, 2, 5) && Holds(nodes, 3, 5)
            && Holds(nodes, 3, 8) && Holds(nodes, 4, 8)
  {
    var nodes := [NodeA, NodeB, NodeC, NodeD, NodeE];
    assert 1 in nodes[0].legs && 1 in nodes[2].legs && 3 in nodes[1].legs && 3 in nodes[2].legs;
    assert 4 in nodes[2].legs && 4 in nodes[3].legs && 5 in nodes[2].legs && 5 in nodes[3].legs;
    assert 8 in nodes[3].legs && 8 in nodes[4].legs;
  }

  lemma AbcdeLegsOk(p: nat)
    requires p < 3
    ensures var nodes := [NodeA, NodeB, NodeC, NodeD, NodeE];
            forall k :: 0 <= k < |nodes[p].legs| ==> LegOk(Abcde0, nodes, nodes[p].id, nodes[p].legs[k])
  {
    AbcdeHolds();
  }

  lemma AbcdeLegsOkDE(p: nat)
    requires 3 <= p < 5
    ensures var nodes := [NodeA, NodeB, NodeC, NodeD, NodeE];
            forall k :: 0 <= k < |nodes[p].legs| ==> LegOk(Abcde0, nodes, nodes[p].id, nodes[p].legs[k])
  {
    AbcdeHolds();
  }

  lemma AbcdeValid()
    ensures Valid(Abcde0, [NodeA, NodeB, NodeC, NodeD, NodeE])
  {
    AbcdeLegsOk(0);
    AbcdeLegsOk(1);
    AbcdeLegsOk(2);
    AbcdeLegsOkDE(3);
    AbcdeLegsOkDE(4);
    ValidByLegs(Abcde0, [NodeA, NodeB, NodeC, NodeD, NodeE]);
  }

  lemma AbcdeUniform0()
    ensures Uniform(Abcde0.edges, 2)
  {
  }

  lemma AbcdeUniform1()
    ensures Uniform(Abcde1.edges, 2)
  {
  }

  lemma AbcdeUniform2()
    ensures Uniform(Abcde2.edges, 2)
  {
  }

  lemma AbcdeUniform3()
    ensures Uniform(Abcde3.edges, 2)
  {
  }

  lemma AbcdeUniform4()
    ensures Uniform(Abcde4.edges, 2)
  {
  }

  // The four contractions, each as: which step happens, and what it produces.

  lemma AbcdeLeg1()
    ensures EndsAt(Abcde0, [NodeA, NodeB, NodeC, NodeD, NodeE], 1, 0, 2)
    ensures forall k' :: 0 <= k' < 1 ==> NodeA.legs[k'] in Abcde0.edges && Abcde0.edges[NodeA.legs[k']].node2.None?
  {
  }

  lemma AbcdeStep1()
    ensures Valid(Abcde0, [NodeA, NodeB, NodeC, NodeD, NodeE])
    ensures Step(Abcde0, [NodeA, NodeB, NodeC, NodeD, NodeE], 0)
              == Some(ContractAt(Abcde0, [NodeA, NodeB, NodeC, NodeD, NodeE], 0, 2))
  {
    AbcdeValid();
    AbcdeUniform0();
    AbcdeLeg1();
    AbcdeNode1();
    StepAlong(Abcde0, [NodeA, NodeB, NodeC, NodeD, NodeE], 0, 1, 0, 2, 2, NodeAC);
  }

  lemma AbcdeNode1()
    ensures NewNode(Abcde0, NodeA, NodeC) == NodeAC
  {
    AbcdeRestA();
    AbcdeRestC();
    assert NodeAC.legs == [0] + [3, 4, 5];
    NewNodeIs(Abcde0, NodeA, NodeC, [0], [3, 4, 5], NodeAC);
  }

  lemma AbcdeRestA()
    ensures Rest(NodeA.legs, NodeC.legs) == [0]
  {
    assert Rest([1], NodeC.legs) == [];
  }

  lemma AbcdeRestC()
    ensures Rest(NodeC.legs, NodeA.legs) == [3, 4, 5]
  {
    assert Rest([5], NodeA.legs) == [5];
    assert Rest([4, 5], NodeA.legs) == [4, 5];
    assert Rest([3, 4, 5], NodeA.legs) == [3, 4, 5];
  }

  lemma AbcdeGraph1()
    ensures ContractGraph(Abcde0, NodeA, NodeC) == Abcde1
  {
    Abcde1Shared();
    Abcde1Moved();
    Abcde1Kept();
    ContractGraphIs(Abcde0, NodeA, NodeC, {1}, Abcde1);
  }

  lemma Abcde1Shared()
    ensures Shared(NodeA, NodeC) == {1} && Abcde1.edges.Keys == Abcde0.edges.Keys - {1}
  {
    assert 1 in NodeA.legs && 1 in NodeC.legs;
  }

  lemma Abcde1Moved()
    ensures forall e :: e in Abcde1.edges && (e in NodeA.legs || e in NodeC.legs) ==>
              e in Abcde0.edges && Abcde1.edges[e] == Rewire(Abcde0.edges[e], NodeA.id, NodeC.id, Abcde0.next)
  {
  }

  lemma Abcde1Kept()
    ensures forall e :: e in Abcde1.edges && e !in NodeA.legs && e !in NodeC.legs ==> e in Abcde0.edges && Abcde1.edges[e] == Abcde0.edges[e]
  {
  }

  lemma AbcdeContract1()
    ensures ContractAt(Abcde0, [NodeA, NodeB, NodeC, NodeD, NodeE], 0, 2) == State(Abcde1, [NodeAC, NodeB, NodeD, NodeE])
  {
    AbcdeNode1();
    AbcdeGraph1();
    ContractFirstWithThird(Abcde0, NodeA, NodeB, NodeC, NodeD, NodeE, Abcde1, NodeAC);
  }

  lemma AbcdeLeg2()
    ensures EndsAt(Abcde1, [NodeAC, NodeB, NodeD, NodeE], 3, 1, 0)
    ensures forall k' :: 0 <= k' < 1 ==> NodeB.legs[k'] in Abcde1.edges && Abcde1.edges[NodeB.legs[k']].node2.None?
  {
  }

  lemma AbcdeStep2()
    requires Valid(Abcde1, [NodeAC, NodeB, NodeD, NodeE])
    ensures Step(Abcde1, [NodeAC, NodeB, NodeD, NodeE], 1)
              == Some(ContractAt(Abcde1, [NodeAC, NodeB, NodeD, NodeE], 1, 0))
  {
    AbcdeUniform1();
    AbcdeLeg2();
    AbcdeNode2();
    StepAlong(Abcde1, [NodeAC, NodeB, NodeD, NodeE], 1, 1, 1, 0, 2, NodeBAC);
  }

  lemma AbcdeNode2()
    ensures NewNode(Abcde1, NodeB, NodeAC) == NodeBAC
  {
    AbcdeRestB();
    AbcdeRestAC();
    assert NodeBAC.legs == [2] + [0, 4, 5];
    NewNodeIs(Abcde1, NodeB, NodeAC, [2], [0, 4, 5], NodeBAC);
  }

  lemma AbcdeRestB()
    ensures Rest(NodeB.legs, NodeAC.legs) == [2]
  {
    assert Rest([3], NodeAC.legs) == [];
  }

  lemma AbcdeRestAC()
    ensures Rest(NodeAC.legs, NodeB.legs) == [0, 4, 5]
  {
    assert Rest([5], NodeB.legs) == [5];
    assert Rest([4, 5], NodeB.legs) == [4, 5];
    assert Rest([3, 4, 5], NodeB.legs) == [4, 5];
  }

  lemma AbcdeGraph2()
    ensures ContractGraph(Abcde1, NodeB, NodeAC) == Abcde2
  {
    Abcde2Shared();
    Abcde2Moved();
    Abcde2Kept();
    ContractGraphIs(Abcde1, NodeB, NodeAC, {3}, Abcde2);
  }

  lemma Abcde2Shared()
    ensures Shared(NodeB, NodeAC) == {3} && Abcde2.edges.Keys == Abcde1.edges.Keys - {3}
  {
    assert 3 in NodeB.legs && 3 in NodeAC.legs;
  }

  lemma Abcde2Moved()
    ensures forall e :: e in Abcde2.edges && (e in NodeB.legs || e in NodeAC.legs) ==>
              e in Abcde1.edges && Abcde2.edges[e] == Rewire(Abcde1.edges[e], NodeB.id, NodeAC.id, Abcde1.next)
  {
  }

  lemma Abcde2Kept()
    ensures forall e :: e in Abcde2.edges && e !in NodeB.legs && e !in NodeAC.legs ==> e in Abcde1.edges && Abcde2.edges[e] == Abcde1.edges[e]
  {
  }

  lemma AbcdeContract2()
    ensures ContractAt(Abcde1, [NodeAC, NodeB, NodeD, NodeE], 1, 0) == State(Abcde2, [NodeBAC, NodeD, NodeE])
  {
    AbcdeNode2();
    AbcdeGraph2();
    ContractAtIs(Abcde1, [NodeAC, NodeB, NodeD, NodeE], 1, 0, Abcde2, NodeBAC, [NodeBAC, NodeD, NodeE]);
  }

  lemma AbcdeLeg3()
    ensures EndsAt(Abcde2, [NodeBAC, NodeD, NodeE], 8, 1, 2)
  {
  }

  lemma AbcdeStep3()
    requires Valid(Abcde2, [NodeBAC, NodeD, NodeE])
    ensures Step(Abcde2, [NodeBAC, NodeD, NodeE], 2) == Some(ContractAt(Abcde2, [NodeBAC, NodeD, NodeE], 1, 2))
  {
    AbcdeUniform2();
    AbcdeLeg3();
    AbcdeNode3();
    StepAlong(Abcde2, [NodeBAC, NodeD, NodeE], 2, 0, 1, 2, 2, NodeDE);
  }

  lemma AbcdeRestD()
    ensures Rest(NodeD.legs, NodeE.legs) == [4, 5, 6, 7, 9]
  {
    assert Rest([9], NodeE.legs) == [9];
    assert Rest([8, 9], NodeE.legs) == [9];
    assert Rest([7, 8, 9], NodeE.legs) == [7, 9];
    assert Rest([6, 7, 8, 9], NodeE.legs) == [6, 7, 9];
    assert Rest([5, 6, 7, 8, 9], NodeE.legs) == [5, 6, 7, 9];
  }

  lemma AbcdeNode3()
    ensures NewNode(Abcde2, NodeD, NodeE) == NodeDE
  {
    AbcdeRestD();
    AbcdeRestE();
    assert NodeDE.legs == [4, 5, 6, 7, 9] + [10];
    NewNodeIs(Abcde2, NodeD, NodeE, [4, 5, 6, 7, 9], [10], NodeDE);
  }

  lemma AbcdeRestE()
    ensures Rest(NodeE.legs, NodeD.legs) == [10]
  {
    assert Rest([10], NodeD.legs) == [10];
  }

  lemma AbcdeGraph3()
    ensures ContractGraph(Abcde2, NodeD, NodeE) == Abcde3
  {
    Abcde3Shared();
    Abcde3Moved();
    Abcde3Kept();
    ContractGraphIs(Abcde2, NodeD, NodeE, {8}, Abcde3);
  }

  lemma Abcde3Shared()
    ensures Shared(NodeD, NodeE) == {8} && Abcde3.edges.Keys == Abcde2.edges.Keys - {8}
  {
    assert 8 in NodeD.legs && 8 in NodeE.legs;
  }

  lemma Abcde3Moved()
    ensures forall e :: e in Abcde3.edges && (e in NodeD.legs || e in NodeE.legs) ==>
              e in Abcde2.edges && Abcde3.edges[e] == Rewire(Abcde2.edges[e], NodeD.id, NodeE.id, Abcde2.next)
  {
  }

  lemma Abcde3Kept()
    ensures forall e :: e in Abcde3.edges && e !in NodeD.legs && e !in NodeE.legs ==> e in Abcde2.edges && Abcde3.edges[e] == Abcde2.edges[e]
  {
  }

  lemma AbcdeContract3()
    ensures ContractAt(Abcde2, [NodeBAC, NodeD, NodeE], 1, 2) == State(Abcde3, [NodeBAC, NodeDE])
  {
    AbcdeNode3();
    AbcdeGraph3();
  }

  lemma AbcdeLeg4()
    ensures EndsAt(Abcde3, [NodeBAC, NodeDE], 4, 0, 1)
    ensures forall k' :: 0 <= k' < 2 ==> NodeBAC.legs[k'] in Abcde3.edges && Abcde3.edges[NodeBAC.legs[k']].node2.None?
  {
  }

  lemma AbcdeStep4()
    requires Valid(Abcde3, [NodeBAC, NodeDE])
    ensures Step(Abcde3, [NodeBAC, NodeDE], 0) == Some(ContractAt(Abcde3, [NodeBAC, NodeDE], 0, 1))
  {
    AbcdeUniform3();
    AbcdeLeg4();
    AbcdeNode4();
    StepAlong(Abcde3, [NodeBAC, NodeDE], 0, 2, 0, 1, 2, NodeAll);
  }

  lemma AbcdeRestDE()
    ensures Rest(NodeDE.legs, NodeBAC.legs) == [6, 7, 9, 10]
  {
    assert Rest([10], NodeBAC.legs) == [10];
    assert Rest([9, 10], NodeBAC.legs) == [9, 10];
    assert Rest([7, 9, 10], NodeBAC.legs) == [7, 9, 10];
    assert Rest([6, 7, 9, 10], NodeBAC.legs) == [6, 7, 9, 10];
    assert Rest([5, 6, 7, 9, 10], NodeBAC.legs) == [6, 7, 9, 10];
  }

  lemma AbcdeNode4()
    ensures NewNode(Abcde3, NodeBAC, NodeDE) == NodeAll
  {
    AbcdeRestBAC();
    AbcdeRestDE();
    assert NodeAll.legs == [2, 0] + [6, 7, 9, 10];
    NewNodeIs(Abcde3, NodeBAC, NodeDE, [2, 0], [6, 7, 9, 10], NodeAll);
  }

  lemma AbcdeRestBAC()
    ensures Rest(NodeBAC.legs, NodeDE.legs) == [2, 0]
  {
    assert Rest([5], NodeDE.legs) == [];
    assert Rest([4, 5], NodeDE.legs) == [];
    assert Rest([0, 4, 5], NodeDE.legs) == [0];
  }

  lemma AbcdeGraph4()
    ensures ContractGraph(Abcde3, NodeBAC, NodeDE) == Abcde4
  {
    Abcde4Shared();
    Abcde4Moved();
    Abcde4Kept();
    ContractGraphIs(Abcde3, NodeBAC, NodeDE, {4, 5}, Abcde4);
  }

  lemma Abcde4Shared()
    ensures Shared(NodeBAC, NodeDE) == {4, 5} && Abcde4.edges.Keys == Abcde3.edges.Keys - {4, 5}
  {
    assert 4 in NodeBAC.legs && 4 in NodeDE.legs && 5 in NodeBAC.legs && 5 in NodeDE.legs;
  }

  lemma Abcde4Moved()
    ensures forall e :: e in Abcde4.edges && (e in NodeBAC.legs || e in NodeDE.legs) ==>
              e in Abcde3.edges && Abcde4.edges[e] == Rewire(Abcde3.edges[e], NodeBAC.id, NodeDE.id, Abcde3.next)
  {
  }

  lemma Abcde4Kept()
    ensures forall e :: e in Abcde4.edges && e !in NodeBAC.legs && e !in NodeDE.legs ==> e in Abcde3.edges && Abcde4.edges[e] == Abcde3.edges[e]
  {
  }

  lemma AbcdeContract4()
    ensures ContractAt(Abcde3, [NodeBAC, NodeDE], 0, 1) == State(Abcde4, [NodeAll])
  {
    AbcdeNode4();
    AbcdeGraph4();
  }

  lemma AbcdePass1()
    ensures Valid(Abcde0, [NodeA, NodeB, NodeC, NodeD, NodeE])
    ensures RankPass(Abcde0, [NodeA, NodeB, NodeC, NodeD, NodeE]) == PassOut(Abcde3, [NodeBAC, NodeDE], true)
    ensures Valid(Abcde3, [NodeBAC, NodeDE])
  {
    AbcdeStep1();
    AbcdeContract1();
    AbcdeStep2();
    AbcdeContract2();
    AbcdeStep3();
    AbcdeContract3();
    PassContractThree(Abcde0, [NodeA, NodeB, NodeC, NodeD, NodeE], Abcde1, [NodeAC, NodeB, NodeD, NodeE],
                      Abcde2, [NodeBAC, NodeD, NodeE], Abcde3, [NodeBAC, NodeDE]);
  }

  lemma AbcdePass2()
    requires Valid(Abcde3, [NodeBAC, NodeDE])
    ensures RankPass(Abcde3, [NodeBAC, NodeDE]) == PassOut(Abcde4, [NodeAll], true)
    ensures Valid(Abcde4, [NodeAll])
  {
    AbcdeStep4();
    AbcdeContract4();
    PassContractOne(Abcde3, [NodeBAC, NodeDE], Abcde4, [NodeAll]);
  }

  lemma AbcdePass3()
    requires Valid(Abcde4, [NodeAll])
    ensures RankPass(Abcde4, [NodeAll]) == PassOut(Abcde4, [NodeAll], false)
  {
    assert 1 !in Abcde4.edges;
    StableWithOneJoin(Abcde4, [NodeAll], 1);
    StableIffUnchanged(Abcde4, [NodeAll]);
    RankPassOutcome(Abcde4, [NodeAll]);
  }

  lemma AbcdeShape()
    ensures Covers(Abcde4.edges, NodeAll.legs) && Dims(Abcde4.edges, NodeAll.legs) == [2, 2, 2, 2, 2, 2]
  {
    AbcdeUniform4();
    DimsUniform(Abcde4.edges, NodeAll.legs, 2);
  }

  /** `_full_rank_simplify([a, b, c, d, e])`: the first pass contracts a with c,
      b with ac and d with e, the second contracts the two nodes left, the
      third changes nothing; one node of shape (2, 2, 2, 2, 2, 2) remains. */
  lemma AbcdeExample()
    ensures && Valid(Abcde0, [NodeA, NodeB, NodeC, NodeD, NodeE])
            && FullRank(Abcde0, [NodeA, NodeB, NodeC, NodeD, NodeE]) == State(Abcde4, [NodeAll])
            && PassCount(Abcde0, [NodeA, NodeB, NodeC, NodeD, NodeE]) == 3
            && Covers(Abcde4.edges, NodeAll.legs) && Dims(Abcde4.edges, NodeAll.legs) == [2, 2, 2, 2, 2, 2]
  {
    AbcdePass1();
    AbcdePass2();
    AbcdePass3();
    FullRankThreePasses(Abcde0, [NodeA, NodeB, NodeC, NodeD, NodeE], Abcde3, [NodeBAC, NodeDE], Abcde4, [NodeAll]);
    AbcdeShape();
  }
}
