# Graph validation and run pipeline — a Dafny model

This project models the core of a small dataflow-graph service. Clients submit a
graph. Each node carries `data_in` / `data_out` dictionaries, and each edge maps
output keys of its source to input keys of its destination. The service then:

- checks the graph's structure;
- stores the graph in a primary document store (MongoDB) and mirrors it into a
  graph store (Neo4j), rolling the primary store back when anything fails;
- later runs the graph: it selects a subgraph, seeds inputs, sorts the selected
  nodes topologically (Kahn's algorithm), copies values along the edges in that
  order, and records the run.

Modules, one concept each:

- `Seqs`, `Wrappers`: list facts (`Distinct`, `IndexOf`) and `Option` / `Result`.
- `Values`: the JSON-like values of `data_in` / `data_out` and Python's `type()`
  of them (`TypeTag`). An absent key reads as `None`.
- `Digraph`: paths, cycles, `Acyclic` and `WeaklyConnected` over sets of pairs.
  These are the reference definitions that the networkx calls
  `is_directed_acyclic_graph` and `weakly_connected_components` are replaced by.
- `TopoSort`: `topological_sort`, an imperative Kahn's algorithm with a FIFO
  queue. Its output is proved equal to `KahnOrder`, a functional statement of
  the same FIFO run, and complete exactly when the counted edges are acyclic.
  `KahnOrder` takes at most as many turns as there are nodes, which is all the
  loop ever takes, since every turn outputs a different node.
- `Connectivity`: a breadth-first search. It is proved to decide
  `WeaklyConnected`, which is what the island check of the validator needs.
- `Schemas`: the graph entities, `validate_graph_structure` (both as a
  specification function `Validation` and as the method
  `ValidateGraphStructure`), and `validate_run_config`.
- `Subgraph`: `fetch_subgraph` over a stored graph value.
- `RunData`: the in-memory `nodes_data` dictionary as a class. Its methods model
  `apply_inputs_and_overwrites` and `propagate_data`.
- `Leaves`: the leaf selection of the leaf-output endpoint.
- `Runs`: `save_run_data` and the `run_graph` pipeline.
- `Crud`: `create_graph`. MongoDB is modelled as a class with insert/delete
  methods, the Neo4j mirror as a class with a log, and failures are given as a
  `Faults` parameter.

## Model

| member | source | states |
|---|---|---|
| Seqs.DistinctIffCard | app/schemas.py:85-87 | `len(node_ids) != len(set(node_ids))` holds exactly when some node id repeats |
| Values.Get | app/schemas.py:114-115 | `get(key, None)` returns the stored value for a present key and `None` for an absent one |
| Values.Update | app/main.py:386 | `dict.update`: keys are the union, the update's entries win, other entries are kept |
| Values.AbsentMatchesNone | app/schemas.py:114-116 | an absent key and a key holding `None` have the same type, so absence on both sides passes the type check |
| Digraph.OrderedIsAcyclic | app/schemas.py:126-128 | a relation whose pairs all go forward in some order of its nodes has no cycle |
| Digraph.SuccessorsCloseCycle | app/schemas.py:126-128 | if every node of a non-empty set has a successor inside the set, the relation has a cycle |
| Digraph.PredecessorsCloseCycle | app/main.py:411-420 | if every node of a non-empty set has a predecessor inside the set, the relation has a cycle |
| Digraph.LinkedSymmetric | app/schemas.py:130-132 | weak connection ignores direction: a link from u to v gives a link from v to u |
| Digraph.LinkedTransitive | app/schemas.py:130-132 | weak links chain, so "being in one component" is an equivalence |
| TopoSort.ZeroInDegree | app/main.py:408 | the initial queue holds exactly the node ids with in-degree 0, without repeats, at strictly increasing positions of the node list |
| TopoSort.AddEdge | app/main.py:401-405 | one edge turns the index of the edges before it into the index of the edges up to it: appended to its source's list and counted at its destination only when both ends are node ids |
| TopoSort.BuildIndex | app/main.py:399-406 | the loop over edges computes exactly the in-degree map and the adjacency lists of edges with both ends selected |
| TopoSort.CompleteOrderIsAcyclic | app/main.py:411-420 | an order that lists every node, with each edge's source before its destination, shows the edges are acyclic |
| TopoSort.ShortOrderIsCyclic | app/main.py:411-420 | if Kahn's queue empties while nodes still have pending in-edges, the edges contain a cycle |
| TopoSort.ReleaseDecrements | app/main.py:414-416 | releasing a node's out-edges lowers every in-degree by the number of those edges into that node |
| TopoSort.ReleaseAppends | app/main.py:414-418 | releasing only appends to the queue, and only nodes that one of the released edges points at |
| TopoSort.ReleaseKeepsQueue | app/main.py:414-418 | while no in-degree drops below zero, releasing keeps output-or-queued distinct and exactly the nodes of in-degree zero |
| TopoSort.ReleaseKeepsTrack | app/main.py:414-418 | after releasing an output node's edges, in-degrees count exactly the in-edges from nodes not yet output, and the queue still tracks the zero in-degrees |
| TopoSort.ReleaseSuccessors | app/main.py:414-418 | the inner loop leaves exactly the in-degrees and queue of `Release`, decrementing and appending in adjacency-list order |
| TopoSort.Dequeue | app/main.py:411-418 | one turn of the outer loop outputs the queue head and then releases its adjacency list onto the back of the queue; in-degrees stay equal to the pending in-edge counts and queued-or-output stays exactly the nodes of in-degree zero |
| TopoSort.FifoAdvance | app/main.py:411-418 | popping the head and releasing its successors is one step of `KahnOrder`: output so far plus the rest of the run is unchanged |
| TopoSort.FifoTurn | app/main.py:411-418 | one turn keeps the loop's invariants and keeps output so far plus the rest of the FIFO run equal to the whole run |
| TopoSort.DrainQueue | app/main.py:410-418 | from an empty output, the while loop outputs exactly the FIFO run `KahnOrder` from its queue, starting with that queue, every edge's source before its destination |
| TopoSort.KahnVerdict | app/main.py:411-420 | once the queue is empty, the order has every node iff the counted edges are acyclic |
| TopoSort.TopologicalSort | app/main.py:391-420 | output is exactly the FIFO order `KahnOrder` from the zero-in-degree nodes in node order, so it is determined by the node and edge lists; it is repeat-free and drawn from the nodes; every edge's source precedes its destination; it starts with the initial zero-in-degree nodes; it lists every node iff the edges are acyclic |
| Connectivity.Expand | app/schemas.py:131 | one search step: every neighbour of the expanded node becomes visited, and the search invariant is kept |
| Connectivity.IsWeaklyConnected | app/schemas.py:130-132 | the search answers true exactly when every two nodes are joined by an undirected walk (at most one weakly connected component) |
| Schemas.NodeOf | app/schemas.py:121-122 | `next(node for node in nodes if ...)` returns the first node of the list that has the requested id |
| Schemas.KeyTypeFailure | app/schemas.py:113-118 | no error iff every mapped key pair has equal types; otherwise the error names the first mismatching pair in dict order and both types |
| Schemas.BoolAgainstIntFails | app/schemas.py:113-118 | a key pair mapping a `bool` output to an `int` input fails the type check; as the first pair, with exactly that pair and `bool`/`int` |
| Schemas.IntAgainstFloatFails | app/schemas.py:113-118 | a key pair mapping an `int` output to a `float` input fails the type check; as the first pair, with exactly that pair and `int`/`float` |
| Schemas.CheckKeyTypes | app/schemas.py:113-118 | the key loop returns exactly `KeyTypeFailure` |
| Schemas.EdgeFailure | app/schemas.py:99-124 | a failing edge is reported only with one of the per-edge errors (dangling, duplicate, type, parity) |
| Schemas.EdgeLoopPasses | app/schemas.py:98-124 | the loop over the graph's edges raises nothing iff its edges are sound and no (src, dst) pair repeats |
| Schemas.FirstEdgeFailureNone | app/schemas.py:98-124 | the edge loop passes iff every edge is referenced, type-compatible and listed on both ends, and no (src, dst) pair repeats |
| Schemas.FirstFailingEdge | app/schemas.py:98-124 | when the edge loop fails, the error comes from the first edge in list order that fails, and every earlier edge passes |
| Schemas.CheckEdges | app/schemas.py:97-124 | the imperative edge loop, tracking `edge_pairs`, returns exactly the first edge failure |
| Schemas.IsDirectedAcyclic | app/schemas.py:126-128 | the DAG check answers true exactly when the edges form no cycle |
| Schemas.ValidateGraphStructure | app/schemas.py:69-134 | the method returns exactly the verdict of the specification `Validation`: uniqueness, then edges, then acyclicity, then connectivity |
| Schemas.ValidationPassIff | app/schemas.py:84-134 | validation passes iff node ids are unique, all edges are sound with distinct pairs, the edges are acyclic and the nodes weakly connected |
| Schemas.ValidationVerdicts | app/schemas.py:84-134 | each error is reported exactly when its check is the first to fail, in the source's order |
| Schemas.SelfLoopIsNotADag | app/schemas.py:126-128 | a graph that passes the edge checks but has a self-loop is rejected as not a DAG |
| Schemas.ReversedPairIsNotDuplicate | app/schemas.py:106-110 | the duplicate check is on ordered pairs: (b, a) does not make (a, b) a duplicate |
| Schemas.ReversedEdgesAreNotADag | app/schemas.py:106-128 | two opposite edges pass the duplicate check but make the graph fail as not a DAG |
| Schemas.ValidateRunConfig | app/schemas.py:156-163 | the configuration is refused iff both the enable list and the disable list are non-empty |
| Subgraph.SelectNodes | app/main.py:335-348 | a stored node is selected iff it is in the enable list (when that is non-empty), else iff it is not in the disable list |
| Subgraph.NodesDictKeys | app/main.py:351-357 | the dict's keys are the selected ids, repeat-free, each with a `data_in` and a `data_out` |
| Subgraph.FirstIndex | app/main.py:351-357 | the position of an id's first record: that record has the id and no earlier one does, or the list's length when no record has it |
| Subgraph.NodesDictOrder | app/main.py:351-357 | the dict's keys come in the order their ids first occur among the selected records, which fixes the order of the initial sort queue |
| Subgraph.NodesDictValues | app/main.py:351-357 | for a repeated id, the dict holds the data of the last record with that id, with null data read as `{}` |
| Subgraph.KeptEdges | app/main.py:359-374 | the kept edges are exactly the stored edges whose both ends are selected, with null key maps read as `{}` |
| Subgraph.KeptEdgesAppend | app/main.py:359-374 | keeping edges is an order-preserving filter: the kept edges of a concatenation are the kept edges of each part in turn, so order and repeats of the stored list survive |
| Subgraph.KeptEdgesSingle | app/main.py:359-374 | one stored edge is kept, converted, exactly when both ends are selected |
| Subgraph.FetchSubgraph | app/main.py:328-376 | fails iff neither list is given; otherwise ids are exactly the selected stored ids, repeat-free; every edge has selected ends; every stored edge between selected nodes is kept; the edge list is the stored list filtered in stored order (`KeptEdges`); counted pairs are stored pairs |
| RunData.Seeded | app/main.py:384-389 | keys are preserved; an overwrite wins over a root input; a root input wins over the stored value; other entries are unchanged; ids not in `nodes_data` are ignored |
| RunData.NodesData.constructor | app/main.py:351-357 | the in-memory dictionary starts with the fetched ids and data |
| RunData.NodesData.UpdateEach | app/main.py:384-386 | the loop over an inputs dict updates each selected node's `data_in` and nothing else |
| RunData.NodesData.ApplyInputsAndOverwrites | app/main.py:378-389 | the new `data_in` is `Seeded(old data_in, root_inputs, data_overwrites)`; `data_out` is unchanged |
| RunData.NodesData.PropagateEdge | app/main.py:432-435 | copying one edge applies its key-pair writes in dict order |
| RunData.NodesData.PropagateEdges | app/main.py:430-435 | copying a node's edges applies their writes in list order |
| RunData.NodesData.GroupBySource | app/main.py:425-427 | the adjacency built here equals the one `topological_sort` builds |
| RunData.NodesData.PropagateData | app/main.py:422-435 | the new `data_in` applies, in topological order and then edge order, every write `dst.data_in[dst_key] = src.data_out.get(src_key)`; `data_out` is unchanged |
| RunData.LastWriteWins | app/main.py:429-435 | after propagation an input key holds the value of the last write to it, or its seeded value if nothing writes it |
| RunData.PropagationIdempotent | app/main.py:422-435 | propagating twice gives the same `data_in` as propagating once, because writes read only `data_out` |
| RunData.ApplyWritesAppend | app/main.py:429-435 | applying two batches of writes in turn equals applying their concatenation |
| Leaves.LeafMapKeys | app/main.py:545-556 | a node id is a key of `leaf_outputs` iff it has an output row and is not the source of any run edge |
| Leaves.LeafRow | app/main.py:548-556 | a leaf's output is the `data_out` of the last row with its id |
| Leaves.LeafMapValues | app/main.py:548-556 | each leaf maps to the `data_out` of its last row, with null read as `{}` |
| Leaves.LeafOutputs | app/main.py:527-561 | "no output data" iff there are no rows; "no leaf outputs" iff every row's node is a source; otherwise the leaf keys and last-row values |
| Leaves.AllSourcesIsCyclic | app/main.py:545-561 | if every node of a run is the source of an edge that stays in the run, the edges contain a cycle |
| Leaves.AcyclicRunHasLeaves | app/main.py:545-561 | when the run's edges are acyclic and join its rows, a leaf always exists, so "no leaf outputs" cannot occur |
| Runs.SaveRunData | app/main.py:437-462 | the run keyed by (run_id, graph_id) is merged; its order is set and each node's output is set; outputs of nodes not in this save are kept exactly as they were, and none is added; other runs are untouched |
| Runs.SaveRunDataIdempotent | app/main.py:446-462 | `MERGE` makes saving the same run twice leave the store as saving it once |
| Runs.RunGraph | app/main.py:288-326 | 400 iff both lists are given; fails iff neither is given; otherwise the run is saved with the fetched `data_out`; the order is exactly the FIFO Kahn order of the fetched nodes and edges, is repeat-free, respects the edges and is complete when the stored edges are acyclic; `data_in` is the seeded then propagated data |
| Crud.MongoStore.InsertGraph | app/crud.py:38 | `insert_one` on graphs stores the document under its `_id`, or raises and changes nothing when it fails or the key is taken |
| Crud.MongoStore.InsertNode | app/crud.py:42 | stores the node under a fresh ObjectId and returns it, or raises and changes nothing |
| Crud.MongoStore.InsertEdge | app/crud.py:47 | stores the edge under a fresh ObjectId and returns it, or raises and changes nothing |
| Crud.MongoStore.DeleteGraph | app/crud.py:58 | `delete_one` removes exactly that graph key |
| Crud.MongoStore.DeleteNode | app/crud.py:60 | `delete_one` removes exactly that node key |
| Crud.MongoStore.DeleteEdge | app/crud.py:62 | `delete_one` removes exactly that edge key |
| Crud.Mirror.CreateGraphInMirror | app/crud.py:51 | the mirror call succeeds iff its outcome says so; what it wrote is appended to the mirror log |
| Crud.InsertNodes | app/crud.py:41-43 | nodes are inserted in order; no node before the stopping point raises, and on failure the node at the stopping point is the one that raised; all succeed iff none raises; the returned ids are exactly the new keys, holding those nodes |
| Crud.InsertEdges | app/crud.py:46-48 | edges are inserted in order; no edge before the stopping point raises, and on failure the edge at the stopping point is the one that raised; all succeed iff none raises; the returned ids are exactly the new keys, holding those edges |
| Crud.DeleteAll | app/crud.py:59-62 | deleting the collected ids removes exactly those node and edge keys |
| Crud.ExtendsUndone | app/crud.py:56-62 | removing the collected ids from a collection that only gained them restores it |
| Crud.NullIdGraphSurvivesRollback | app/crud.py:57-58 | as written, a graph stored under a null `_id` is still present after rollback |
| Crud.RollbackRestores | app/crud.py:53-62 | the corrected rollback restores the primary store exactly to its state before `create_graph` |
| Crud.Rollback | app/crud.py:56-62 | the rollback method's new state is the corrected rollback of the old state |
| Crud.InsertAndMirror | app/crud.py:36-65 | with the corrected rollback (see Findings), on any failure the primary store is back to its old state; success iff every insert and the mirror succeed, and then exactly the graph, nodes and edges were added |
| Crud.CreateGraph | app/crud.py:7-67 | an invalid graph is refused with its validation error and nothing written; with the corrected rollback (see Findings), any error leaves the primary store unchanged; success iff valid and every write succeeds |

## Left out

- Cypher queries, the Neo4j session and driver, and JSON (de)serialisation.
  Stored node and edge properties are modelled as already decoded values, with
  null as `None`.
- Floating point values: only their type tag matters to the validator.
- pydantic coercion and the `PyObjectId` validator: graph ids are `DocId` values.
- FastAPI routing and HTTP status codes: errors are `Result` values.
- The read-only endpoints other than leaf selection.
- Subgraph.FetchSubgraph: when neither list is given, the code binds no query
  and raises (app/main.py:335-350). The model follows the code and returns
  `Err(NoQueryBound)`; there is no fall-back that runs the whole graph.
- Runs.RunGraph: `uuid4()` is replaced by a run id parameter. The propagated
  `data_in` is not saved by `save_run_data`, so it is returned in `RunOutcome`
  rather than stored.
- Runs.RunGraph: the stored graph is not tied to the `GraphSchema` it was
  created from, because the mirror's write format is not part of this model.
- Crud.Mirror.CreateGraphInMirror: the mirror is a log of complete or partial
  writes. Its Neo4j statements are not modelled, because app/neo4j_crud.py is
  not part of this model.
- Crud.Rollback: deletes are assumed to succeed. An exception raised inside
  the rollback itself is not modelled.
- TopoSort.Release: an edge whose destination has no in-degree entry is
  passed over, where `in_degree[dst]` would raise `KeyError`. The sort never
  holds such an edge, because only edges between node ids are indexed.
- Concurrency between requests is not modelled: each request runs alone.
- Crud.CreateGraph: validation failures are returned as `Invalid(reason)`.
  The `if not ...: raise` guard at app/crud.py:23-24 cannot fire, because the
  validator raises rather than returning false.

## Findings

| source | as written | input that shows it | evidently intended | confidence | as-written member | corrected member |
|---|---|---|---|---|---|---|
| app/crud.py:57-58 | rollback deletes the graph document only `if graph_id:`, so a falsy inserted id is skipped | a graph submitted with `"_id": null` is inserted under the null key, then an edge insert or the mirror fails | every inserted graph document is deleted on rollback (`if graph_id is not None`) | not executed | Crud.NullIdGraphSurvivesRollback | Crud.RollbackRestores |
