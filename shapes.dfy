/**
  Shape inference for the contraction of two tensor-network nodes
  (`infer_new_shape` and `infer_new_size` in tensorcircuit/simplify.py).

  Tensor contents are abstracted away: a node is its identity and its
  ordered legs, and every leg is an edge of the network with a dimension.
 */
module Shapes {

  datatype Option<T> = None | Some(value: T)

  function Min(i: nat, j: nat): nat { if i <= j then i else j }
  function Max(i: nat, j: nat): nat { if i <= j then j else i }

  type EdgeId = nat
  type NodeId = nat

  /** An edge and the nodes it joins; `node2` is `None` for a dangling edge. */
  datatype Edge = Edge(dim: nat, node1: NodeId, node2: Option<NodeId>)

  /** A node of the network: its identity and its legs, in axis order. */
  datatype Node = Node(id: NodeId, legs: seq<EdgeId>)

  type EdgeTable = map<EdgeId, Edge>

  /** Every leg is a known edge. */
  predicate Covers(edges: EdgeTable, legs: seq<EdgeId>) {
    forall e :: e in legs ==> e in edges
  }

  /** No edge occurs twice among the legs of one node. */
  predicate DistinctLegs(legs: seq<EdgeId>) {
    forall k1, k2 :: 0 <= k1 < k2 < |legs| ==> legs[k1] != legs[k2]
  }

  /** The dimensions of the given legs, in order: the shape of a tensor with these legs. */
  function Dims(edges: EdgeTable, legs: seq<EdgeId>): (s: seq<nat>)
    requires Covers(edges, legs)
    ensures |s| == |legs|
    ensures forall k :: 0 <= k < |legs| ==> s[k] == edges[legs[k]].dim
  {
    if legs == [] then [] else [edges[legs[0]].dim] + Dims(edges, legs[1..])
  }

  /** The legs of `x` that `y` does not hold, in the order of `x`. */
  function Rest(x: seq<EdgeId>, y: seq<EdgeId>): seq<EdgeId> {
    if x == [] then []
    else if x[0] in y then Rest(x[1..], y)
    else [x[0]] + Rest(x[1..], y)
  }

  lemma RestCovers(edges: EdgeTable, x: seq<EdgeId>, y: seq<EdgeId>)
    requires Covers(edges, x)
    ensures Covers(edges, Rest(x, y))
  {
    RestMembers(x, y);
  }

  /** `Rest(x, y)` holds exactly the legs of `x` that `y` does not hold. */
  lemma {:induction false} RestMembers(x: seq<EdgeId>, y: seq<EdgeId>)
    ensures forall e :: e in Rest(x, y) <==> e in x && e !in y
  {
    if x != [] {
      RestMembers(x[1..], y);
      assert forall e :: e in x <==> e == x[0] || e in x[1..] by {
        assert x == [x[0]] + x[1..];
      }
    }
  }

  /** The edges joining `a` and `b`: those both nodes hold. */
  function Shared(a: Node, b: Node): set<EdgeId> {
    set e | e in a.legs && e in b.legs
  }

  /** The legs of the node that contracting `a` with `b` produces. */
  function NewLegs(a: Node, b: Node): (r: seq<EdgeId>)
    ensures forall e :: e in r <==> (e in a.legs || e in b.legs) && e !in Shared(a, b)
  {
    RestMembers(a.legs, b.legs);
    RestMembers(b.legs, a.legs);
    Rest(a.legs, b.legs) + Rest(b.legs, a.legs)
  }

  /** What `infer_new_shape` returns: the new shape, and the two old shapes when asked for. */
  datatype ShapeInfo =
    | NewShapeOnly(newShape: seq<nat>)
    | ShapeWithOld(newShape: seq<nat>, aShape: seq<nat>, bShape: seq<nat>)

  /** What `infer_new_size` returns: the new size, and the two old sizes when asked for. */
  datatype SizeInfo =
    | NewSizeOnly(newDim: nat)
    | SizeWithOld(newDim: nat, aDim: nat, bDim: nat)

  /** Shape of the contraction of `a` with `b`: the dimensions of `a`'s
      unshared legs followed by those of `b`'s unshared legs. */
  function InferNewShape(edges: EdgeTable, a: Node, b: Node, includeOld: bool): (r: ShapeInfo)
    requires Covers(edges, a.legs) && Covers(edges, b.legs)
    ensures r.ShapeWithOld? <==> includeOld
    ensures Covers(edges, NewLegs(a, b)) && r.newShape == Dims(edges, NewLegs(a, b))
    ensures includeOld ==> r.aShape == Dims(edges, a.legs) && r.bShape == Dims(edges, b.legs)
  {
    RestCovers(edges, a.legs, b.legs);
    RestCovers(edges, b.legs, a.legs);
    DimsAppend(edges, Rest(a.legs, b.legs), Rest(b.legs, a.legs));
    var newShape := Dims(edges, Rest(a.legs, b.legs)) + Dims(edges, Rest(b.legs, a.legs));
    if includeOld then ShapeWithOld(newShape, Dims(edges, a.legs), Dims(edges, b.legs))
    else NewShapeOnly(newShape)
  }

  lemma DimsAppend(edges: EdgeTable, x: seq<EdgeId>, y: seq<EdgeId>)
    requires Covers(edges, x) && Covers(edges, y)
    ensures Covers(edges, x + y) && Dims(edges, x + y) == Dims(edges, x) + Dims(edges, y)
  {
    var l, r := Dims(edges, x + y), Dims(edges, x) + Dims(edges, y);
    forall k | 0 <= k < |x + y| ensures l[k] == r[k] {
      if k < |x| { assert (x + y)[k] == x[k]; } else { assert (x + y)[k] == y[k - |x|]; }
    }
  }

  /** `np.prod` over naturals; the product of no factors is 1. */
  function Product(s: seq<nat>): nat {
    if s == [] then 1 else s[0] * Product(s[1..])
  }

  /** Size of the contraction of `a` with `b`, and optionally the two old sizes. */
  function InferNewSize(edges: EdgeTable, a: Node, b: Node, includeOld: bool): (r: SizeInfo)
    requires Covers(edges, a.legs) && Covers(edges, b.legs)
    ensures r.SizeWithOld? <==> includeOld
  {
    RestCovers(edges, a.legs, b.legs);
    RestCovers(edges, b.legs, a.legs);
    var aDim := Product(Dims(edges, a.legs));
    var bDim := Product(Dims(edges, b.legs));
    var newDim := Product(Dims(edges, Rest(a.legs, b.legs))) * Product(Dims(edges, Rest(b.legs, a.legs)));
    if includeOld then SizeWithOld(newDim, aDim, bDim) else NewSizeOnly(newDim)
  }

  lemma {:induction false} ProductAppend(x: seq<nat>, y: seq<nat>)
    ensures Product(x + y) == Product(x) * Product(y)
  {
    if x == [] {
      assert x + y == y;
    } else {
      assert (x + y)[1..] == x[1..] + y;
      ProductAppend(x[1..], y);
      calc {
        Product(x + y);
        x[0] * Product(x[1..] + y);
        x[0] * (Product(x[1..]) * Product(y));
        (x[0] * Product(x[1..])) * Product(y);
      }
    }
  }

  /** The size `infer_new_size` reports is the number of entries of the shape
      `infer_new_shape` reports, for the new tensor and for both old ones. */
  lemma SizeAgreesWithShape(edges: EdgeTable, a: Node, b: Node, includeOld: bool)
    requires Covers(edges, a.legs) && Covers(edges, b.legs)
    ensures InferNewSize(edges, a, b, includeOld).newDim == Product(InferNewShape(edges, a, b, includeOld).newShape)
    ensures includeOld ==>
              && InferNewSize(edges, a, b, includeOld).aDim == Product(InferNewShape(edges, a, b, includeOld).aShape)
              && InferNewSize(edges, a, b, includeOld).bDim == Product(InferNewShape(edges, a, b, includeOld).bShape)
  {
    RestCovers(edges, a.legs, b.legs);
    RestCovers(edges, b.legs, a.legs);
    ProductAppend(Dims(edges, Rest(a.legs, b.legs)), Dims(edges, Rest(b.legs, a.legs)));
  }

  /** Whether or not the old shapes are asked for, the new shape (and size) is the same. */
  lemma IncludeOldKeepsNew(edges: EdgeTable, a: Node, b: Node)
    requires Covers(edges, a.legs) && Covers(edges, b.legs)
    ensures InferNewShape(edges, a, b, false) == NewShapeOnly(InferNewShape(edges, a, b, true).newShape)
    ensures InferNewSize(edges, a, b, false) == NewSizeOnly(InferNewSize(edges, a, b, true).newDim)
  {
  }

  /** The edges of `x` that `y` also holds. */
  function Common(x: seq<EdgeId>, y: seq<EdgeId>): set<EdgeId> {
    set e | e in x && e in y
  }

  lemma CommonStep(x: seq<EdgeId>, y: seq<EdgeId>)
    requires x != [] && x[0] !in x[1..]
    ensures |Common(x, y)| == |Common(x[1..], y)| + (if x[0] in y then 1 else 0)
  {
    var t := x[1..];
    assert forall e :: e in x <==> e == x[0] || e in t by {
      assert x == [x[0]] + t;
    }
    if x[0] in y {
      assert Common(x, y) == Common(t, y) + {x[0]};
    } else {
      assert Common(x, y) == Common(t, y);
    }
  }

  lemma {:induction false} RestLength(x: seq<EdgeId>, y: seq<EdgeId>)
    requires DistinctLegs(x)
    ensures |Rest(x, y)| + |Common(x, y)| == |x|
  {
    if x != [] {
      var t := x[1..];
      assert DistinctLegs(t) by {
        forall k1, k2 | 0 <= k1 < k2 < |t| ensures t[k1] != t[k2] {
          assert t[k1] == x[k1 + 1] && t[k2] == x[k2 + 1];
        }
      }
      assert x[0] !in t by {
        forall k | 0 <= k < |t| ensures t[k] != x[0] {
          assert t[k] == x[k + 1];
        }
      }
      RestLength(t, y);
      CommonStep(x, y);
    }
  }

  /** The rank of the contracted node is rank(a) + rank(b) - 2 * |shared edges|. */
  lemma NewShapeRank(edges: EdgeTable, a: Node, b: Node)
    requires Covers(edges, a.legs) && Covers(edges, b.legs)
    requires DistinctLegs(a.legs) && DistinctLegs(b.legs)
    ensures |InferNewShape(edges, a, b, false).newShape| == |a.legs| + |b.legs| - 2 * |Shared(a, b)|
  {
    RestLength(a.legs, b.legs);
    RestLength(b.legs, a.legs);
    assert Common(b.legs, a.legs) == Common(a.legs, b.legs) == Shared(a, b);
  }

  /** The example of the doc comment: shapes (2, 3, 5) and (3, 5, 7) sharing
      the edges of dimension 3 and 5 contract to shape (2, 7). */
  lemma DocExampleShape()
    ensures var edges := map[0 := Edge(2, 0, None), 1 := Edge(3, 0, Some(1)),
                             2 := Edge(5, 0, Some(1)), 3 := Edge(7, 1, None)];
            InferNewShape(edges, Node(0, [0, 1, 2]), Node(1, [1, 2, 3]), true)
              == ShapeWithOld([2, 7], [2, 3, 5], [3, 5, 7])
  {
    var edges := map[0 := Edge(2, 0, None), 1 := Edge(3, 0, Some(1)),
                     2 := Edge(5, 0, Some(1)), 3 := Edge(7, 1, None)];
    DocExampleLegs();
    assert Dims(edges, [0]) == [2];
    assert Dims(edges, [3]) == [7];
    assert Dims(edges, [0, 1, 2]) == [2, 3, 5];
    assert Dims(edges, [1, 2, 3]) == [3, 5, 7];
  }

  lemma DocExampleLegs()
    ensures Rest([0, 1, 2], [1, 2, 3]) == [0] && Rest([1, 2, 3], [0, 1, 2]) == [3]
  {
    assert Rest([2], [1, 2, 3]) == [];
    assert Rest([1, 2], [1, 2, 3]) == [];
    assert Rest([3], [0, 1, 2]) == [3];
    assert Rest([2, 3], [0, 1, 2]) == [3];
  }
}
