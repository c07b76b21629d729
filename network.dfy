/**
  The topology of a tensor network and the contraction of two of its nodes
  (`pseudo_contract_between` in tensorcircuit/simplify.py, and the
  topological effect of `tn.contract_between`).

  The edges live in a table that a contraction rewrites in place: the edges
  shared by the two nodes disappear and every other edge of either node is
  re-attached to the new node. Node identity, which the source compares with
  `id(...)`, is a `NodeId`; `next` is the identity the next new node gets.
 */
module Network {
  import opened Shapes

  datatype Graph = Graph(edges: EdgeTable, next: NodeId)

  /** A network together with the list of nodes a simplification pass works on. */
  datatype State = State(graph: Graph, nodes: seq<Node>)

  /** The edge has node `u` as one of its ends. */
  predicate Attached(ed: Edge, u: NodeId) {
    ed.node1 == u || ed.node2 == Some(u)
  }

  ghost predicate HasNode(nodes: seq<Node>, u: NodeId) {
    exists p :: 0 <= p < |nodes| && nodes[p].id == u
  }

  /** The node of the list whose identity is `u` has `e` among its legs. */
  ghost predicate Holds(nodes: seq<Node>, u: NodeId, e: EdgeId) {
    exists p :: 0 <= p < |nodes| && nodes[p].id == u && e in nodes[p].legs
  }

  /** Leg `e` of node `u` is a known edge of positive dimension attached to `u`;
      unless it dangles, it joins two distinct nodes of the list, both holding it. */
  ghost predicate LegOk(g: Graph, nodes: seq<Node>, u: NodeId, e: EdgeId) {
    && e in g.edges
    && g.edges[e].dim > 0
    && Attached(g.edges[e], u)
    && (g.edges[e].node2.Some? ==>
          && g.edges[e].node1 != g.edges[e].node2.value
          && Holds(nodes, g.edges[e].node1, e)
          && Holds(nodes, g.edges[e].node2.value, e))
  }

  /** A well-formed network: distinct nodes, no repeated leg, no self-loop,
      no neighbour outside the list, and fresh identities above every node. */
  ghost predicate Valid(g: Graph, nodes: seq<Node>) {
    && (forall p, q :: 0 <= p < q < |nodes| ==> nodes[p].id != nodes[q].id)
    && (forall p :: 0 <= p < |nodes| ==> nodes[p].id < g.next && DistinctLegs(nodes[p].legs))
    && (forall p, e :: 0 <= p < |nodes| && e in nodes[p].legs ==> LegOk(g, nodes, nodes[p].id, e))
  }

  /** Position of the node with identity `u`. */
  function IndexOf(nodes: seq<Node>, u: NodeId): (p: nat)
    requires HasNode(nodes, u)
    ensures p < |nodes| && nodes[p].id == u
    ensures forall q :: 0 <= q < p ==> nodes[q].id != u
  {
    if nodes[0].id == u then 0
    else
      assert HasNode(nodes[1..], u) by {
        var q :| 0 <= q < |nodes| && nodes[q].id == u;
        assert nodes[1..][q - 1] == nodes[q];
      }
      1 + IndexOf(nodes[1..], u)
  }

  /** Moves the ends of an edge that were at `a` or `b` to `c`. */
  function Rewire(ed: Edge, a: NodeId, b: NodeId, c: NodeId): Edge {
    Edge(ed.dim,
         if ed.node1 == a || ed.node1 == b then c else ed.node1,
         if ed.node2 == Some(a) || ed.node2 == Some(b) then Some(c) else ed.node2)
  }

  /** The node that contracting `a` with `b` creates. */
  function NewNode(g: Graph, a: Node, b: Node): Node {
    Node(g.next, NewLegs(a, b))
  }

  /** The edge table after contracting `a` with `b`: shared edges removed, the
      other edges of `a` and `b` re-attached to the new node. */
  function ContractGraph(g: Graph, a: Node, b: Node): Graph {
    Graph(map e | e in g.edges && e !in Shared(a, b) ::
            if e in a.legs || e in b.legs then Rewire(g.edges[e], a.id, b.id, g.next) else g.edges[e],
          g.next + 1)
  }

  /** `_multi_remove` with a single index: drops position `k`, keeping the order of the rest. */
  function RemoveAt<T>(s: seq<T>, k: nat): (r: seq<T>)
    requires k < |s|
    ensures |r| == |s| - 1
    ensures forall q :: 0 <= q < |r| ==> r[q] == s[if q < k then q else q + 1]
  {
    s[..k] + s[k + 1..]
  }

  /** The contraction step of `_rank_simplify`: nodes `j1` and `j2` are contracted,
      the new node takes the earlier of the two positions and the later one is removed. */
  function ContractAt(g: Graph, nodes: seq<Node>, j1: nat, j2: nat): (r: State)
    requires j1 < |nodes| && j2 < |nodes| && j1 != j2
    ensures |r.nodes| == |nodes| - 1
    ensures r.graph == ContractGraph(g, nodes[j1], nodes[j2])
    ensures r.nodes[Min(j1, j2)] == NewNode(g, nodes[j1], nodes[j2])
    ensures forall q :: 0 <= q < |r.nodes| && q != Min(j1, j2) ==>
              r.nodes[q] == nodes[if q < Max(j1, j2) then q else q + 1]
  {
    var c := NewNode(g, nodes[j1], nodes[j2]);
    State(ContractGraph(g, nodes[j1], nodes[j2]), RemoveAt(nodes[Min(j1, j2) := c], Max(j1, j2)))
  }

  lemma DimsAgree(e1: EdgeTable, e2: EdgeTable, legs: seq<EdgeId>)
    requires Covers(e1, legs) && Covers(e2, legs)
    requires forall e :: e in legs ==> e1[e].dim == e2[e].dim
    ensures Dims(e1, legs) == Dims(e2, legs)
  {
    var s1, s2 := Dims(e1, legs), Dims(e2, legs);
    forall k | 0 <= k < |legs| ensures s1[k] == s2[k] {
      assert legs[k] in legs;
    }
  }

  /** The new node's shape, read from the rewritten edge table, is the new
      shape `infer_new_shape` predicts, and the shared edges are gone. */
  lemma ContractShape(g: Graph, a: Node, b: Node)
    requires Covers(g.edges, a.legs) && Covers(g.edges, b.legs)
    ensures var g' := ContractGraph(g, a, b);
            && Covers(g'.edges, NewNode(g, a, b).legs)
            && Dims(g'.edges, NewNode(g, a, b).legs) == InferNewShape(g.edges, a, b, false).newShape
            && (forall e :: e in Shared(a, b) ==> e !in g'.edges)
  {
    var g', legs := ContractGraph(g, a, b), NewLegs(a, b);
    assert Covers(g.edges, legs);
    DimsAgree(g'.edges, g.edges, legs);
  }

  lemma {:induction false} RestDistinct(x: seq<EdgeId>, y: seq<EdgeId>)
    requires DistinctLegs(x)
    ensures DistinctLegs(Rest(x, y))
  {
    if x != [] {
      var t := x[1..];
      assert DistinctLegs(t) by {
        forall k1, k2 | 0 <= k1 < k2 < |t| ensures t[k1] != t[k2] {
          assert t[k1] == x[k1 + 1] && t[k2] == x[k2 + 1];
        }
      }
      assert x[0] !in t by {
        forall k | 0 <= k < |t| ensures t[k] != x[0] {
          assert t[k] == x[k + 1];
        }
      }
      RestDistinct(t, y);
      RestMembers(t, y);
      if x[0] !in y {
        var r := Rest(x, y);
        assert r == [x[0]] + Rest(t, y);
        forall k1, k2 | 0 <= k1 < k2 < |r| ensures r[k1] != r[k2] {
          if k1 == 0 { assert r[k2] in Rest(t, y); }
          else { assert r[k1] == Rest(t, y)[k1 - 1] && r[k2] == Rest(t, y)[k2 - 1]; }
        }
      }
    }
  }

  /** Contracting two nodes without repeated legs gives a node without repeated legs. */
  lemma NewLegsDistinct(a: Node, b: Node)
    requires DistinctLegs(a.legs) && DistinctLegs(b.legs)
    ensures DistinctLegs(NewLegs(a, b))
  {
    var ra, rb := Rest(a.legs, b.legs), Rest(b.legs, a.legs);
    RestDistinct(a.legs, b.legs);
    RestDistinct(b.legs, a.legs);
    RestMembers(a.legs, b.legs);
    RestMembers(b.legs, a.legs);
    var r := ra + rb;
    forall k1, k2 | 0 <= k1 < k2 < |r| ensures r[k1] != r[k2] {
      if k2 < |ra| {
        assert r[k1] == ra[k1] && r[k2] == ra[k2];
      } else if k1 >= |ra| {
        assert r[k1] == rb[k1 - |ra|] && r[k2] == rb[k2 - |ra|];
      } else {
        assert r[k1] == ra[k1] && r[k2] == rb[k2 - |ra|];
        assert r[k1] !in b.legs && r[k2] in b.legs;
      }
    }
  }

  /** Under `Valid`, a node holding an edge is the node whose identity the edge names. */
  lemma HolderIsUnique(g: Graph, nodes: seq<Node>, p: nat, e: EdgeId)
    requires Valid(g, nodes)
    requires p < |nodes| && e !in nodes[p].legs
    ensures !Holds(nodes, nodes[p].id, e)
  {
    forall q | 0 <= q < |nodes| && nodes[q].id == nodes[p].id ensures q == p {}
  }

  lemma HoldsAfterContract(g: Graph, nodes: seq<Node>, j1: nat, j2: nat, p: nat, e: EdgeId)
    requires j1 < |nodes| && j2 < |nodes| && j1 != j2
    requires p < |nodes| && p != j1 && p != j2 && e in nodes[p].legs
    ensures Holds(ContractAt(g, nodes, j1, j2).nodes, nodes[p].id, e)
  {
    var ns := ContractAt(g, nodes, j1, j2).nodes;
    var p' := if p < Max(j1, j2) then p else p - 1;
    assert ns[p'] == nodes[p];
  }

  /** Leg `e` of the new node is well formed after the contraction. */
  lemma NewLegOk(g: Graph, nodes: seq<Node>, j1: nat, j2: nat, e: EdgeId)
    requires Valid(g, nodes)
    requires j1 < |nodes| && j2 < |nodes| && j1 != j2
    requires e in NewNode(g, nodes[j1], nodes[j2]).legs
    ensures LegOk(ContractAt(g, nodes, j1, j2).graph, ContractAt(g, nodes, j1, j2).nodes, g.next, e)
  {
    var a, b := nodes[j1], nodes[j2];
    var st := ContractAt(g, nodes, j1, j2);
    var g', ns := st.graph, st.nodes;
    // the end of e that is a or b, and the node it comes from
    var j, o := if e in a.legs then j1 else j2, if e in a.legs then j2 else j1;
    assert e in nodes[j].legs && e !in nodes[o].legs;
    assert LegOk(g, nodes, nodes[j].id, e);
    var ed := g.edges[e];
    assert e in g'.edges && g'.edges[e] == Rewire(ed, a.id, b.id, g.next);
    assert ns[Min(j1, j2)] == NewNode(g, a, b);
    if ed.node2.Some? {
      var w := if ed.node1 == nodes[j].id then ed.node2.value else ed.node1;
      assert Holds(nodes, w, e);
      var pw :| 0 <= pw < |nodes| && nodes[pw].id == w && e in nodes[pw].legs;
      assert w != nodes[j].id;
      HolderIsUnique(g, nodes, o, e);
      assert pw != j1 && pw != j2;
      HoldsAfterContract(g, nodes, j1, j2, pw, e);
      assert Holds(ns, g.next, e);
      assert w < g.next;
    }
  }

  /** Leg `e` of node `p`, neither of the two contracted, is well formed after the contraction. */
  lemma OldLegOk(g: Graph, nodes: seq<Node>, j1: nat, j2: nat, p: nat, e: EdgeId)
    requires Valid(g, nodes)
    requires j1 < |nodes| && j2 < |nodes| && j1 != j2
    requires p < |nodes| && p != j1 && p != j2 && e in nodes[p].legs
    ensures LegOk(ContractAt(g, nodes, j1, j2).graph, ContractAt(g, nodes, j1, j2).nodes, nodes[p].id, e)
  {
    var a, b, d := nodes[j1], nodes[j2], nodes[p];
    var st := ContractAt(g, nodes, j1, j2);
    var g', ns := st.graph, st.nodes;
    assert LegOk(g, nodes, d.id, e);
    var ed := g.edges[e];
    assert d.id != a.id && d.id != b.id;
    if e in a.legs {
      assert LegOk(g, nodes, a.id, e);
    }
    if e in b.legs {
      assert LegOk(g, nodes, b.id, e);
    }
    assert e !in Shared(a, b);
    assert e in g'.edges;
    HoldsAfterContract(g, nodes, j1, j2, p, e);
    assert ns[Min(j1, j2)] == NewNode(g, a, b);
    if ed.node2.Some? {
      var w := if ed.node1 == d.id then ed.node2.value else ed.node1;
      assert Holds(nodes, w, e);
      var pw :| 0 <= pw < |nodes| && nodes[pw].id == w && e in nodes[pw].legs;
      if pw != j1 && pw != j2 {
        HoldsAfterContract(g, nodes, j1, j2, pw, e);
        assert e !in a.legs && e !in b.legs;
      } else {
        assert e in NewLegs(a, b);
        assert Holds(ns, g.next, e);
      }
    }
  }

  /** Contracting two nodes of a well-formed network keeps it well formed, and the
      remaining edges of the two nodes end up attached to the new node. */
  lemma ContractValid(g: Graph, nodes: seq<Node>, j1: nat, j2: nat)
    requires Valid(g, nodes)
    requires j1 < |nodes| && j2 < |nodes| && j1 != j2
    ensures Valid(ContractAt(g, nodes, j1, j2).graph, ContractAt(g, nodes, j1, j2).nodes)
    ensures forall e :: e in NewNode(g, nodes[j1], nodes[j2]).legs ==>
              Attached(ContractAt(g, nodes, j1, j2).graph.edges[e], g.next)
  {
    var a, b := nodes[j1], nodes[j2];
    var st := ContractAt(g, nodes, j1, j2);
    var g', ns := st.graph, st.nodes;
    var c := NewNode(g, a, b);
    var lo, hi := Min(j1, j2), Max(j1, j2);
    assert ns[lo] == c;
    // where each remaining position came from
    forall q | 0 <= q < |ns| && q != lo
      ensures var p := if q < hi then q else q + 1; p != j1 && p != j2 && ns[q] == nodes[p]
    {
    }
    forall q1, q2 | 0 <= q1 < q2 < |ns| ensures ns[q1].id != ns[q2].id {
      var p1, p2 := if q1 < hi then q1 else q1 + 1, if q2 < hi then q2 else q2 + 1;
      if q1 == lo { assert ns[q2] == nodes[p2]; }
      else if q2 == lo { assert ns[q1] == nodes[p1]; }
      else { assert ns[q1] == nodes[p1] && ns[q2] == nodes[p2] && p1 < p2; }
    }
    NewLegsDistinct(a, b);
    forall q | 0 <= q < |ns| ensures ns[q].id < g'.next && DistinctLegs(ns[q].legs) {
      if q != lo { assert ns[q] == nodes[if q < hi then q else q + 1]; }
    }
    forall q, e | 0 <= q < |ns| && e in ns[q].legs ensures LegOk(g', ns, ns[q].id, e) {
      if q == lo {
        NewLegOk(g, nodes, j1, j2, e);
      } else {
        var p := if q < hi then q else q + 1;
        assert ns[q] == nodes[p];
        OldLegOk(g, nodes, j1, j2, p, e);
      }
    }
    forall e | e in c.legs ensures Attached(g'.edges[e], g.next) {
      NewLegOk(g, nodes, j1, j2, e);
    }
  }

  /** The edges of a network, which contractions rewire in place. */
  class TensorNetwork {
    var edges: EdgeTable
    var next: NodeId

    function Current(): Graph
      reads this
    {
      Graph(edges, next)
    }

    constructor (g: Graph)
      ensures Current() == g
    {
      edges := g.edges;
      next := g.next;
    }

    /** Contracts `a` with `b` on shapes and topology only: the new node has
        the shape `infer_new_shape` predicts, the shared edges are removed and
        the other edges of `a` and `b` are re-attached to the new node. */
    method PseudoContractBetween(a: Node, b: Node) returns (c: Node)
      requires Covers(edges, a.legs) && Covers(edges, b.legs)
      requires a.id != b.id
      modifies this
      ensures Current() == ContractGraph(old(Current()), a, b)
      ensures c == NewNode(old(Current()), a, b)
      ensures Covers(edges, c.legs) && Dims(edges, c.legs) == InferNewShape(old(edges), a, b, false).newShape
      ensures forall e :: e in Shared(a, b) ==> e !in edges
    {
      ContractShape(Current(), a, b);
      var shared := Shared(a, b);
      c := Node(next, NewLegs(a, b));
      edges := map e | e in edges && e !in shared ::
                 if e in a.legs || e in b.legs then Rewire(edges[e], a.id, b.id, next) else edges[e];
      next := next + 1;
    }
  }
}
