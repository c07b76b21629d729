# Rank simplification of tensor networks, modelled in Dafny

This project models the shape-level tensor-network simplifier of
`tensorcircuit/simplify.py` and proves properties of it:

- **Shape inference** (`infer_new_shape`, `infer_new_size`): the shape and size of the
  node that contracting two nodes would produce.
- **Pseudo-contraction** (`pseudo_contract_between`): a contraction that changes only shapes
  and topology. Shared edges are removed and the other edges of both nodes are re-attached to
  a fresh node.
- **Greedy rank simplification** (`_rank_simplify`, `_full_rank_simplify`): passes over a list of
  nodes. Each pass contracts, at each position, along the first joined leg whose contraction the
  rule admits; passes repeat until one changes nothing.
- **Decomposition choice of `_split_two_qubit_gate`**: which of the two SVD splits of a two-qubit
  gate is returned, given the bond dimensions each split produces.

A network is an edge table `map<EdgeId, Edge>` together with a counter for fresh node
identities. An `Edge` has a dimension, a first end `node1` and an optional second end `node2`.
A node is its identity and its ordered legs, i.e. edge identifiers in axis order. `Network.Valid`
is the well-formedness invariant:

- node identities are distinct;
- no node repeats a leg;
- every leg is an edge of positive dimension attached to its node;
- a joined edge has two distinct ends, and both hold it.

Files, one module each:

| file | module | models |
|---|---|---|
| `shapes.dfy` | `Shapes` | `infer_new_shape`, `infer_new_size` (pure functions) |
| `lexorder.dfy` | `LexOrder` | Python's `<=` on tuples, which the contraction rule uses |
| `network.dfy` | `Network` | the network, the contraction step and `pseudo_contract_between`; the last is a method of the class `TensorNetwork`, whose edge table it rewrites in place |
| `ranksimplify.dfy` | `RankSimplify` | `_rank_simplify` and `_full_rank_simplify`, as loops over a `TensorNetwork` proved against ghost specification functions |
| `docexamples.dfy` | `DocExamples` | the two examples of the doc comment of `_full_rank_simplify`, worked through the specification |
| `splitgate.dfy` | `SplitGate` | the selection rule of `_split_two_qubit_gate` |

The contraction rule at `tensorcircuit/simplify.py:139` compares shapes with Python's tuple `<=`:

- This is a lexicographic order, so the model's `Rule` uses `LexOrder.LexLe`.
- The doc comment at line 158 says the simplification never increases the rank of a tensor.
- The code does not keep that promise: `RankSimplify.RuleCanRaiseRank` gives two nodes of rank 3 whose contraction, of rank 4, the rule admits.
- The model follows the code.
- When every edge has the same dimension, as in a circuit on qubits, the rule compares ranks. `RankSimplify.UniformRuleIsRank` proves this.

## Model

The table lists the members whose contracts state a property. They rest on these definitions, which fix
what the source computes and carry no contract of their own:

- `Shapes.Shared` (`tensorcircuit/simplify.py:20`, `:54`, `:77`): the edges `tn.get_shared_edges(a, b)` returns, taken as the legs both nodes hold.
- `Shapes.Rest` (`tensorcircuit/simplify.py:58-59`): the legs of one node that the other does not hold, in axis order. This is the `if e not in shared_edges` filter; `Shapes.RestMembers` states it.
- `Shapes.Product` (`tensorcircuit/simplify.py:21-25`): `np.prod` over naturals, 1 for no factors. `Shapes.ProductAppend` and `Shapes.SizeAgreesWithShape` are stated with it.
- `LexOrder.LexLe` (`tensorcircuit/simplify.py:139`): Python's `<=` on tuples of integers. `LexOrder.LexLeIsFirstDifference` ties it to the first-difference definition.
- `RankSimplify.Rule` (`tensorcircuit/simplify.py:138-139`): the contraction test, `new_shape <= a_shape or new_shape <= b_shape` with the shapes of `infer_new_shape(a, b)`. `RankSimplify.RuleCanRaiseRank` and `RankSimplify.UniformRuleIsRank` state what it admits.
- `Network.Rewire` and `Network.ContractGraph` (`tensorcircuit/simplify.py:83`): the edge table after `_remove_edges(shared_edges, a, b, new_node)`. The shared edges are dropped, every end at `a` or `b` of another edge moves to the new node, and the identity counter advances. `Network.ContractShape` and `Network.ContractValid` state what this gives.

| member | source | states |
|---|---|---|
| Shapes.Dims | tensorcircuit/simplify.py:55-56 | the shape of a list of legs: one dimension per leg, in axis order |
| Shapes.RestMembers | tensorcircuit/simplify.py:58-59 | the legs kept from one node are exactly those the other node does not hold |
| Shapes.NewLegs | tensorcircuit/simplify.py:57-60 | the legs of the contracted node are exactly the legs of either node that are not shared |
| Shapes.InferNewShape | tensorcircuit/simplify.py:54-63 | the old shapes are returned exactly when `include_old` is set; the new shape is the dimensions of `a`'s unshared legs followed by `b`'s; the old shapes are the nodes' own dimension sequences |
| Shapes.DimsAppend | tensorcircuit/simplify.py:57-60 | the shape of a concatenation of legs is the concatenation of the shapes |
| Shapes.InferNewSize | tensorcircuit/simplify.py:19-28 | the old sizes are returned exactly when `include_old` is set |
| Shapes.ProductAppend | tensorcircuit/simplify.py:23-25 | the product over a concatenation is the product of the two products |
| Shapes.SizeAgreesWithShape | tensorcircuit/simplify.py:19-28 | `new_dim` is the product of the new shape; `a_dim` and `b_dim` are the products of the old shapes |
| Shapes.IncludeOldKeepsNew | tensorcircuit/simplify.py:61-63 | without `include_old`, both functions return the same new shape or size as with it, and nothing else |
| Shapes.RestLength | tensorcircuit/simplify.py:58-59 | the legs kept from a node plus the legs it shares make up all its legs |
| Shapes.NewShapeRank | tensorcircuit/simplify.py:54-60 | the new rank is rank(a) + rank(b) - 2 * number of shared edges |
| Shapes.DocExampleShape | tensorcircuit/simplify.py:37-42 | shapes (2, 3, 5) and (3, 5, 7) joined by two edges give new shape (2, 7), and the old shapes come back unchanged |
| LexOrder.LexLeIsFirstDifference | tensorcircuit/simplify.py:139 | tuple `<=` holds exactly when `x` is a prefix of `y` or is smaller at the first position where they differ |
| LexOrder.LexLeReflexive | tensorcircuit/simplify.py:139 | every shape is `<=` itself |
| LexOrder.LexLeTotal | tensorcircuit/simplify.py:139 | any two shapes are comparable |
| LexOrder.LexLeAntisymmetric | tensorcircuit/simplify.py:139 | shapes `<=` each other are equal |
| LexOrder.LexLeTransitive | tensorcircuit/simplify.py:139 | the order is transitive |
| LexOrder.LexLeExtension | tensorcircuit/simplify.py:139 | a shape is strictly below each of its proper extensions, whatever the extra dimensions are |
| LexOrder.LexLeRepeat | tensorcircuit/simplify.py:139 | on shapes of one repeated dimension the order compares lengths, in both directions |
| Network.IndexOf | tensorcircuit/simplify.py:140-144 | the position found holds the node with that identity, and no earlier position does |
| Network.RemoveAt | tensorcircuit/simplify.py:148 | removing one index shortens the list by one and keeps the other elements in order |
| Network.ContractAt | tensorcircuit/simplify.py:140-148 | the merged node takes the earlier of the two positions; the later position is removed; every other node keeps its relative order; the network is the contracted one |
| Network.ContractShape | tensorcircuit/simplify.py:77-83 | in the rewritten edge table the new node has the shape `infer_new_shape` predicts, and the shared edges are gone |
| Network.NewLegsDistinct | tensorcircuit/simplify.py:78-81 | contracting nodes without repeated legs gives a node without repeated legs |
| Network.ContractValid | tensorcircuit/simplify.py:82-83 | contraction keeps the network well formed, and all legs of the new node are attached to it |
| Network.TensorNetwork.PseudoContractBetween | tensorcircuit/simplify.py:66-84 | the new node has `infer_new_shape`'s new shape and the unshared legs of `a` then `b`; shared edges are removed from the edge table; the other edges of `a` and `b` are re-attached to the new node |
| RankSimplify.FirstContractible | tensorcircuit/simplify.py:136-139 | the first leg, in axis order, that joins two nodes whose contraction the rule admits, or none when no leg qualifies |
| RankSimplify.Step | tensorcircuit/simplify.py:134-150 | at one position: nothing when no leg is contractible; otherwise one contraction that shortens the list by one and keeps it well formed |
| RankSimplify.StepIsOneContraction | tensorcircuit/simplify.py:136-150 | a step contracts the two ends of the first contractible leg of the node at that position; that node is one of the ends; the merged node takes the earlier position and the later one is removed |
| RankSimplify.PassFrom | tensorcircuit/simplify.py:131-153 | a pass keeps the network well formed; it either returns its input unchanged or a strictly shorter list marked as changed; a non-empty list stays non-empty |
| RankSimplify.RankPass | tensorcircuit/simplify.py:128-153 | `_rank_simplify(nodes)` keeps the network well formed; when `is_changed` is false it returns the list and network it was given; otherwise the list is strictly shorter |
| RankSimplify.UnchangedPassFrom | tensorcircuit/simplify.py:149 | a pass that reports no change met no contractible leg |
| RankSimplify.StableIffUnchanged | tensorcircuit/simplify.py:149-153 | `is_changed` is false exactly when no leg of the list is contractible |
| RankSimplify.RankPassOutcome | tensorcircuit/simplify.py:131-153 | `is_changed` is false exactly when list and network come back unchanged; otherwise the list is strictly shorter |
| RankSimplify.JoinedLeg | tensorcircuit/simplify.py:137-147 | a joined leg that the search reaches is contractible exactly when the rule admits its two ends, and then the step contracts them |
| RankSimplify.ContractFirstLeg | tensorcircuit/simplify.py:135-150 | the inner loop contracts exactly when the specification's step does, leaves network and list alone otherwise, and produces the step's network and list |
| RankSimplify.RankSimplifyPass | tensorcircuit/simplify.py:128-153 | the loop's final network, list and `is_changed` are those of the specified pass |
| RankSimplify.FullRank | tensorcircuit/simplify.py:194-197 | the fixpoint is well formed, has no contractible leg left, is no longer than the input, and is non-empty when the input is |
| RankSimplify.PassCount | tensorcircuit/simplify.py:194-197 | the specified fixpoint takes at least one pass, and at most `len(nodes)` passes on a non-empty list |
| RankSimplify.FullRankSimplify | tensorcircuit/simplify.py:156-197 | the loop produces the specified fixpoint, so nothing contractible is left and the list is no longer than the input; its pass counter equals `PassCount`, so the loop runs between one and `len(nodes)` passes |
| RankSimplify.RuleCanRaiseRank | tensorcircuit/simplify.py:139 | the rule admits a contraction whose result has a higher rank than both nodes, contrary to the doc comment at line 158 |
| RankSimplify.UniformRuleIsRank | tensorcircuit/simplify.py:138-139 | with one dimension everywhere, the rule holds exactly when the new rank is at most that of one node, i.e. when one node shares at least half its legs |
| DocExamples.FghExample | tensorcircuit/simplify.py:175-187 | `[f, g, h]`: the first pass contracts f with g and the second changes nothing; two nodes remain, the merged one of shape (2, 2, 2, 2) |
| DocExamples.AbcdeExample | tensorcircuit/simplify.py:164-185 | `[a, b, c, d, e]`: three passes; one node of shape (2, 2, 2, 2, 2, 2) remains |
| SplitGate.EffectiveChoice | tensorcircuit/simplify.py:93-94 | a truncation by number of singular values without a fixed choice selects choice 1; otherwise `fixed_choice` is kept |
| SplitGate.ChooseSplit | tensorcircuit/simplify.py:93-125 | choice 1 gives the unswapped split; choice 2 gives the swapped split; otherwise the result is none exactly when both bonds are at least 4, else the split of smaller bond with ties going to the unswapped one |
| SplitGate.AutomaticChoiceIsOptimal | tensorcircuit/simplify.py:118-125 | in automatic mode no split has a smaller bond than the chosen one |
| SplitGate.OtherFixedChoiceIsAutomatic | tensorcircuit/simplify.py:104-118 | a fixed choice other than 1 or 2 falls through to the automatic rule, even when truncation is asked for |

## Left out

- Tensor contents: the values that `tn.contract_between`, `backend.zeros` and tensordot produce are not modelled. A node is its identity and legs, and `_rank_simplify` is modelled with the topology-only contraction, which leaves the network in the same shape as a real contraction.
- The SVD: `tn.split_node` is a floating-point decomposition in a foreign library. Its bond dimensions `s1` and `s2` are inputs to `SplitGate.ChooseSplit`, and the nodes it returns are represented by a `Choice`.
- `max_truncation_err`: it only influences the SVD, so it has no counterpart in the selection rule.
- The `copy` of the gate node made by `_split_two_qubit_gate` is not modelled.
- Library helpers: `tn.get_shared_edges`, `tn.network_components._remove_edges` and `_multi_remove` (from `tensorcircuit/cons.py`, which is not part of this model) are re-specified.
  - Shared edges are the legs both nodes hold.
  - `_remove_edges` rewires each end that was `a` or `b` to the new node; this is `Network.Rewire`.
  - `_multi_remove` with one index is `Network.RemoveAt`.
- Object identity: Python's `id(n)` is the node's `NodeId`.
  - The source assigns `nodes[njs[0]] = new_node` before calling `_multi_remove`, so the first contraction of a call also changes the list object the caller passed in.
  - The model works on a value `seq<Node>` and does not capture that aliasing.
- `Shapes.InferNewShape`, `Shapes.InferNewSize`, `Network.TensorNetwork.PseudoContractBetween` and `Network.Valid`: a node contracted with itself, or listed twice, is outside the model. `_rank_simplify` never does either on a well-formed list, because every joined edge there has two distinct ends.
  - Shared edges are the legs both nodes hold. This agrees with `tn.get_shared_edges(a, b)` only when `a` and `b` are different nodes.
  - With `a` and `b` the same node, the source's shared edges are only the node's self-loops. So `infer_new_shape(a, a)` on a node of shape (2, 3) without self-loops gives (2, 3, 2, 3), while the model's new shape is empty.
  - `PseudoContractBetween` requires two different identities. On the same node the source's `_remove_edges` raises an error, and the model has no error path for it.
  - `Network.Valid` requires distinct identities in the list. The source accepts a list holding one node twice, and `njs` then has three entries.
- Degenerate inputs: `Network.Valid` requires every joined edge to have two distinct ends, both in the list. Self-loop (trace) edges, and neighbours missing from the list, would break `njs` in the source.
- `np.prod`: sizes are unbounded naturals, so the model has no overflow. An empty product is 1, as the integer it is read as, not the float NumPy returns.
- `Shapes.InferNewSize`: its own contract states only which variant is returned. The sizes are stated through `Shapes.SizeAgreesWithShape`.
- `DocExamples.AbcdeExample` and `DocExamples.FghExample`: the examples are proved about the specification functions `FullRank` and `PassCount`. `RankSimplify.FullRankSimplify` is proved to compute `FullRank`, so they hold for the method too.
- The rest of the system: backends, circuits, density matrices and the other simplification routines are not part of this model.
