/**
 * The record shapes of app/schemas.py and the structural check
 * `GraphSchema.validate_graph_structure` (app/schemas.py:69-134), with the
 * run-configuration rule `RunSchema.validate_run_config` (app/schemas.py:156-163).
 */
module Schemas {
  import opened Seqs
  import opened Values
  import opened Digraph
  import opened Wrappers
  import TopoSort
  import Connectivity

  /** The `_id` of a stored document: a MongoDB ObjectId, or `None`, which `Optional[PyObjectId]` accepts. */
  datatype DocId = NullId | ObjectId(n: nat)

  /** `EdgeSchema` (app/schemas.py:33-39). */
  datatype Edge = Edge(srcNode: NodeId, dstNode: NodeId, keys: KeyMap, edgeId: string)

  /** `NodeSchema` (app/schemas.py:47-54). */
  datatype Node = Node(nodeId: NodeId, dataIn: DataMap, dataOut: DataMap, pathsIn: seq<Edge>, pathsOut: seq<Edge>)

  /** `GraphSchema` (app/schemas.py:62-67). */
  datatype Graph = Graph(id: DocId, nodes: seq<Node>, edges: seq<Edge>)

  /** The `ValueError`s the check raises, with the data each message carries. */
  datatype ValidationError =
    | NodeIdsNotUnique
    | DanglingEdge
    | DuplicateEdge(src: NodeId, dst: NodeId)
    | IncompatibleTypes(srcKey: string, src: NodeId, dstKey: string, dst: NodeId, srcType: TypeTag, dstType: TypeTag)
    | ParityError(src: NodeId, dst: NodeId)
    | NotADag
    | IsolatedSubgraphs

  /** The check returns `True` or raises; it never returns `False`. */
  datatype Verdict = Pass | Fail(error: ValidationError)

  /** The errors raised inside the loop over edges. */
  predicate PerEdgeError(err: ValidationError)
  {
    err.DanglingEdge? || err.DuplicateEdge? || err.IncompatibleTypes? || err.ParityError?
  }

  function NodeIds(nodes: seq<Node>): seq<NodeId>
  {
    seq(|nodes|, i requires 0 <= i < |nodes| => nodes[i].nodeId)
  }

  /** The first node with the given id, as `next(node for node in nodes if node.node_id == id)`. */
  function NodeOf(nodes: seq<Node>, id: NodeId): (n: Node)
    requires id in NodeIds(nodes)
    ensures n in nodes && n.nodeId == id
    ensures exists k :: 0 <= k < |nodes| && nodes[k] == n && forall j :: 0 <= j < k ==> nodes[j].nodeId != id
  {
    var k := IndexOf(NodeIds(nodes), id);
    assert forall j :: 0 <= j < k ==> NodeIds(nodes)[j] == nodes[j].nodeId;
    nodes[k]
  }

  /** Pydantic model equality: every field equal, the key maps compared as dicts. */
  predicate SameEdge(a: Edge, b: Edge)
  {
    a.srcNode == b.srcNode && a.dstNode == b.dstNode && SameKeyMap(a.keys, b.keys) && a.edgeId == b.edgeId
  }

  /** `e in paths`. */
  predicate Listed(e: Edge, paths: seq<Edge>)
  {
    exists k :: 0 <= k < |paths| && SameEdge(paths[k], e)
  }

  function PairOf(e: Edge): (NodeId, NodeId)
  {
    (e.srcNode, e.dstNode)
  }

  /** The `(src, dst)` pairs of an edge list, in order. */
  function PairsOf(es: seq<Edge>): seq<(NodeId, NodeId)>
  {
    seq(|es|, i requires 0 <= i < |es| => PairOf(es[i]))
  }

  /** The edges of the networkx digraph `G` once every edge has been added. */
  function EdgePairs(es: seq<Edge>): Rel
  {
    Elems(PairsOf(es))
  }

  /**
   * The type check of one edge (app/schemas.py:113-118): the first mapped key
   * pair, in dict order, whose source value and destination value differ in type.
   */
  function KeyTypeFailure(src: NodeId, dst: NodeId, dataOut: DataMap, dataIn: DataMap, keys: seq<(string, string)>)
    : (r: Option<ValidationError>)
    ensures r.None? <==> forall k :: 0 <= k < |keys| ==> TypeAt(dataOut, keys[k].0) == TypeAt(dataIn, keys[k].1)
    ensures r.Some? ==>
      exists k :: (0 <= k < |keys|
        && TypeAt(dataOut, keys[k].0) != TypeAt(dataIn, keys[k].1)
        && r.value == IncompatibleTypes(keys[k].0, src, keys[k].1, dst, TypeAt(dataOut, keys[k].0), TypeAt(dataIn, keys[k].1))
        && forall j :: 0 <= j < k ==> TypeAt(dataOut, keys[j].0) == TypeAt(dataIn, keys[j].1))
  {
    if keys == [] then None
    else if TypeAt(dataOut, keys[0].0) != TypeAt(dataIn, keys[0].1) then
      Some(IncompatibleTypes(keys[0].0, src, keys[0].1, dst, TypeAt(dataOut, keys[0].0), TypeAt(dataIn, keys[0].1)))
    else
      var r := KeyTypeFailure(src, dst, dataOut, dataIn, keys[1..]);
      assert forall k :: 1 <= k < |keys| ==> keys[k] == keys[1..][k - 1];
      r
  }

  /**
   * `type()` tells `bool` from `int`: an edge that maps a `bool` output to an
   * `int` input fails the type check, and when that key pair comes first the
   * error names it with the two types.
   */
  lemma BoolAgainstIntFails(src: NodeId, dst: NodeId, dataOut: DataMap, dataIn: DataMap, keys: seq<(string, string)>, k: nat)
    requires k < |keys|
    requires keys[k].0 in dataOut && dataOut[keys[k].0].VBool?
    requires keys[k].1 in dataIn && dataIn[keys[k].1].VInt?
    ensures KeyTypeFailure(src, dst, dataOut, dataIn, keys).Some?
    ensures k == 0 ==> KeyTypeFailure(src, dst, dataOut, dataIn, keys) == Some(IncompatibleTypes(keys[0].0, src, keys[0].1, dst, BoolType, IntType))
  {
  }

  /**
   * `type()` tells `int` from `float`: an edge that maps an `int` output to a
   * `float` input fails the type check, and when that key pair comes first the
   * error names it with the two types.
   */
  lemma IntAgainstFloatFails(src: NodeId, dst: NodeId, dataOut: DataMap, dataIn: DataMap, keys: seq<(string, string)>, k: nat)
    requires k < |keys|
    requires keys[k].0 in dataOut && dataOut[keys[k].0].VInt?
    requires keys[k].1 in dataIn && dataIn[keys[k].1].VFloat?
    ensures KeyTypeFailure(src, dst, dataOut, dataIn, keys).Some?
    ensures k == 0 ==> KeyTypeFailure(src, dst, dataOut, dataIn, keys) == Some(IncompatibleTypes(keys[0].0, src, keys[0].1, dst, IntType, FloatType))
  {
  }

  /** The checks one edge goes through, in source order; `seen` holds the pairs of the edges before it. */
  function EdgeFailure(g: Graph, e: Edge, seen: set<(NodeId, NodeId)>): (r: Option<ValidationError>)
    ensures r.Some? ==> PerEdgeError(r.value)
  {
    var ids := NodeIds(g.nodes);
    if e.srcNode !in ids || e.dstNode !in ids then Some(DanglingEdge)
    else if PairOf(e) in seen then Some(DuplicateEdge(e.srcNode, e.dstNode))
    else
      var src := NodeOf(g.nodes, e.srcNode);
      var dst := NodeOf(g.nodes, e.dstNode);
      match KeyTypeFailure(e.srcNode, e.dstNode, src.dataOut, dst.dataIn, e.keys)
      case Some(err) => Some(err)
      case None =>
        if !Listed(e, src.pathsOut) || !Listed(e, dst.pathsIn) then Some(ParityError(e.srcNode, e.dstNode))
        else None
  }

  /** The loop over edges (app/schemas.py:98-124): the first edge, in list order, that fails a check. */
  function FirstEdgeFailure(g: Graph, es: seq<Edge>, seen: set<(NodeId, NodeId)>): (r: Option<ValidationError>)
    ensures r.Some? ==> PerEdgeError(r.value)
    decreases |es|
  {
    if es == [] then None
    else
      match EdgeFailure(g, es[0], seen)
      case Some(err) => Some(err)
      case None => FirstEdgeFailure(g, es[1..], seen + {PairOf(es[0])})
  }

  /** The whole check (app/schemas.py:85-134), with networkx's two tests stated as graph predicates. */
  ghost function Validation(g: Graph): Verdict
  {
    var ids := NodeIds(g.nodes);
    if !Distinct(ids) then Fail(NodeIdsNotUnique)
    else
      match FirstEdgeFailure(g, g.edges, {})
      case Some(err) => Fail(err)
      case None =>
        if !Acyclic(EdgePairs(g.edges)) then Fail(NotADag)
        else if !WeaklyConnected(Elems(ids), EdgePairs(g.edges)) then Fail(IsolatedSubgraphs)
        else Pass
  }

  // ---- The same rules stated declaratively ----

  predicate Referenced(g: Graph, e: Edge)
  {
    e.srcNode in NodeIds(g.nodes) && e.dstNode in NodeIds(g.nodes)
  }

  /** An edge references two nodes, its mapped keys agree in type, and both end nodes list it. */
  predicate EdgeSound(g: Graph, e: Edge)
  {
    && Referenced(g, e)
    && var src := NodeOf(g.nodes, e.srcNode);
       var dst := NodeOf(g.nodes, e.dstNode);
       && (forall k :: 0 <= k < |e.keys| ==> TypeAt(src.dataOut, e.keys[k].0) == TypeAt(dst.dataIn, e.keys[k].1))
       && Listed(e, src.pathsOut) && Listed(e, dst.pathsIn)
  }

  /** Every edge is sound and no ordered `(src, dst)` pair occurs twice. */
  predicate EdgesSound(g: Graph)
  {
    (forall i :: 0 <= i < |g.edges| ==> EdgeSound(g, g.edges[i])) && Distinct(PairsOf(g.edges))
  }

  /** A graph the service accepts. */
  ghost predicate WellFormed(g: Graph)
  {
    && Distinct(NodeIds(g.nodes))
    && EdgesSound(g)
    && Acyclic(EdgePairs(g.edges))
    && WeaklyConnected(Elems(NodeIds(g.nodes)), EdgePairs(g.edges))
  }

  lemma EdgeFailureNone(g: Graph, e: Edge, seen: set<(NodeId, NodeId)>)
    ensures EdgeFailure(g, e, seen).None? <==> EdgeSound(g, e) && PairOf(e) !in seen
  {
  }

  /** Every edge of `es` is sound and its pair is not in `seen`. */
  predicate SoundAndUnseen(g: Graph, es: seq<Edge>, seen: set<(NodeId, NodeId)>)
  {
    forall i :: 0 <= i < |es| ==> EdgeSound(g, es[i]) && PairOf(es[i]) !in seen
  }

  lemma DistinctPairsCons(es: seq<Edge>)
    requires es != []
    ensures Distinct(PairsOf(es)) <==> PairOf(es[0]) !in EdgePairs(es[1..]) && Distinct(PairsOf(es[1..]))
  {
    var ps := PairsOf(es);
    assert PairsOf(es[1..]) == ps[1..];
    if Distinct(ps) {
      forall j | 0 <= j < |ps[1..]| ensures ps[1..][j] != ps[0] {
        assert ps[1..][j] == ps[j + 1];
      }
      assert ps[0] !in Elems(ps[1..]);
    }
    if PairOf(es[0]) !in EdgePairs(es[1..]) && Distinct(ps[1..]) {
      forall i, j | 0 <= i < j < |ps| ensures ps[i] != ps[j] {
        if i == 0 {
          assert ps[j] == ps[1..][j - 1];
        } else {
          assert ps[i] == ps[1..][i - 1] && ps[j] == ps[1..][j - 1];
        }
      }
    }
  }

  lemma SoundAndUnseenCons(g: Graph, es: seq<Edge>, seen: set<(NodeId, NodeId)>)
    requires es != []
    ensures SoundAndUnseen(g, es, seen)
        <==> EdgeSound(g, es[0]) && PairOf(es[0]) !in seen && SoundAndUnseen(g, es[1..], seen)
  {
    assert forall i :: 1 <= i < |es| ==> es[i] == es[1..][i - 1];
  }

  lemma SoundAndUnseenSeen(g: Graph, es: seq<Edge>, seen: set<(NodeId, NodeId)>, p: (NodeId, NodeId))
    ensures SoundAndUnseen(g, es, seen + {p}) <==> SoundAndUnseen(g, es, seen) && p !in EdgePairs(es)
  {
    var ps := PairsOf(es);
    if p in EdgePairs(es) {
      var i :| 0 <= i < |ps| && ps[i] == p;
      assert PairOf(es[i]) in seen + {p};
    } else {
      forall i | 0 <= i < |es| ensures PairOf(es[i]) != p {
        assert ps[i] in EdgePairs(es);
      }
    }
  }

  /** The edge loop passes exactly when every edge is sound, no pair repeats and none was seen before. */
  lemma {:induction false} FirstEdgeFailureNone(g: Graph, es: seq<Edge>, seen: set<(NodeId, NodeId)>)
    ensures FirstEdgeFailure(g, es, seen).None? <==> SoundAndUnseen(g, es, seen) && Distinct(PairsOf(es))
    decreases |es|
  {
    if es != [] {
      EdgeFailureNone(g, es[0], seen);
      FirstEdgeFailureNone(g, es[1..], seen + {PairOf(es[0])});
      DistinctPairsCons(es);
      SoundAndUnseenCons(g, es, seen);
      SoundAndUnseenSeen(g, es[1..], seen, PairOf(es[0]));
    }
  }

  /** The pairs before edge `j` are the first edge's pair and the pairs before edge `j - 1` of the rest. */
  lemma PrefixPairs(es: seq<Edge>, seen: set<(NodeId, NodeId)>, j: nat)
    requires 0 < j <= |es|
    ensures seen + EdgePairs(es[..j]) == (seen + {PairOf(es[0])}) + EdgePairs(es[1..][..j - 1])
  {
    assert PairsOf(es[..j]) == [PairOf(es[0])] + PairsOf(es[1..][..j - 1]);
  }

  /** Edge `j` of `es` is checked as edge `j - 1` of the rest, once the first edge's pair is seen. */
  lemma EdgeFailureShift(g: Graph, es: seq<Edge>, seen: set<(NodeId, NodeId)>, j: nat)
    requires 0 < j <= |es| - 1
    ensures EdgeFailure(g, es[j], seen + EdgePairs(es[..j]))
         == EdgeFailure(g, es[1..][j - 1], (seen + {PairOf(es[0])}) + EdgePairs(es[1..][..j - 1]))
  {
    PrefixPairs(es, seen, j);
    assert es[j] == es[1..][j - 1];
  }

  /**
   * Fail-fast in edge-list order: a failure of the edge loop is the failure of
   * some edge `i` given the pairs of the edges before it, and every earlier edge passed.
   */
  lemma {:induction false} FirstFailingEdge(g: Graph, es: seq<Edge>, seen: set<(NodeId, NodeId)>) returns (i: nat)
    requires FirstEdgeFailure(g, es, seen).Some?
    ensures i < |es| && EdgeFailure(g, es[i], seen + EdgePairs(es[..i])) == FirstEdgeFailure(g, es, seen)
    ensures forall j :: 0 <= j < i ==> EdgeFailure(g, es[j], seen + EdgePairs(es[..j])).None?
    decreases |es|
  {
    assert es[..0] == [] && EdgePairs([]) == {};
    if EdgeFailure(g, es[0], seen).Some? {
      i := 0;
    } else {
      var seen' := seen + {PairOf(es[0])};
      var i' := FirstFailingEdge(g, es[1..], seen');
      i := i' + 1;
      EdgeFailureShift(g, es, seen, i);
      forall j | 0 < j < i ensures EdgeFailure(g, es[j], seen + EdgePairs(es[..j])).None? {
        EdgeFailureShift(g, es, seen, j);
      }
    }
  }

  /** The edge loop of the whole graph passes exactly when its edges are sound. */
  lemma EdgeLoopPasses(g: Graph)
    ensures FirstEdgeFailure(g, g.edges, {}).None? <==> EdgesSound(g)
  {
    FirstEdgeFailureNone(g, g.edges, {});
    assert SoundAndUnseen(g, g.edges, {}) <==> forall i :: 0 <= i < |g.edges| ==> EdgeSound(g, g.edges[i]);
  }

  /** Sound edges reference nodes of the graph. */
  lemma SoundEdgesReferenced(g: Graph)
    requires EdgesSound(g)
    ensures forall i :: 0 <= i < |g.edges| ==> g.edges[i].srcNode in NodeIds(g.nodes) && g.edges[i].dstNode in NodeIds(g.nodes)
  {
    forall i | 0 <= i < |g.edges| ensures Referenced(g, g.edges[i]) {
      assert EdgeSound(g, g.edges[i]);
    }
  }

  /** The check passes exactly on well-formed graphs. */
  lemma ValidationPassIff(g: Graph)
    ensures Validation(g) == Pass <==> WellFormed(g)
  {
    EdgeLoopPasses(g);
  }

  /**
   * Which error the check raises: duplicate node ids before anything else;
   * the cycle test only when every edge passed; the island test only on an
   * acyclic graph.
   */
  lemma ValidationVerdicts(g: Graph)
    ensures Validation(g) == Fail(NodeIdsNotUnique) <==> !Distinct(NodeIds(g.nodes))
    ensures Validation(g).Fail? && PerEdgeError(Validation(g).error) <==> Distinct(NodeIds(g.nodes)) && !EdgesSound(g)
    ensures Validation(g) == Fail(NotADag)
        <==> Distinct(NodeIds(g.nodes)) && EdgesSound(g) && !Acyclic(EdgePairs(g.edges))
    ensures Validation(g) == Fail(IsolatedSubgraphs)
        <==> Distinct(NodeIds(g.nodes)) && EdgesSound(g) && Acyclic(EdgePairs(g.edges))
             && !WeaklyConnected(Elems(NodeIds(g.nodes)), EdgePairs(g.edges))
  {
    EdgeLoopPasses(g);
  }

  /** An edge from a node to itself passes the edge loop but is a cycle. */
  lemma SelfLoopIsNotADag(g: Graph, k: nat)
    requires Distinct(NodeIds(g.nodes)) && EdgesSound(g)
    requires k < |g.edges| && g.edges[k].srcNode == g.edges[k].dstNode
    ensures Validation(g) == Fail(NotADag)
  {
    var a := g.edges[k].srcNode;
    assert PairsOf(g.edges)[k] == (a, a);
    assert IsCycle(EdgePairs(g.edges), [a, a]);
    ValidationVerdicts(g);
  }

  /** The duplicate test is on ordered pairs: having seen `(b, a)` does not make `(a, b)` a duplicate. */
  lemma ReversedPairIsNotDuplicate(g: Graph, e: Edge)
    requires e.srcNode != e.dstNode
    ensures EdgeFailure(g, e, {(e.dstNode, e.srcNode)}) == EdgeFailure(g, e, {})
  {
  }

  /** Two sound edges `a -> b` and `b -> a` pass the edge loop and fail the cycle test. */
  lemma ReversedEdgesAreNotADag(g: Graph, i: nat, j: nat)
    requires Distinct(NodeIds(g.nodes)) && EdgesSound(g)
    requires i < |g.edges| && j < |g.edges|
    requires g.edges[j].srcNode == g.edges[i].dstNode && g.edges[j].dstNode == g.edges[i].srcNode
    ensures Validation(g) == Fail(NotADag)
  {
    var a, b := g.edges[i].srcNode, g.edges[i].dstNode;
    assert PairsOf(g.edges)[i] == (a, b) && PairsOf(g.edges)[j] == (b, a);
    assert IsCycle(EdgePairs(g.edges), [a, b, a]);
    ValidationVerdicts(g);
  }

  // ---- The check as written: a loop that grows `edge_pairs`, then the two graph tests ----

  /** The inner loop of app/schemas.py:113-118. */
  method CheckKeyTypes(src: NodeId, dst: NodeId, dataOut: DataMap, dataIn: DataMap, keys: seq<(string, string)>)
    returns (r: Option<ValidationError>)
    ensures r == KeyTypeFailure(src, dst, dataOut, dataIn, keys)
  {
    for k := 0 to |keys|
      invariant KeyTypeFailure(src, dst, dataOut, dataIn, keys) == KeyTypeFailure(src, dst, dataOut, dataIn, keys[k..])
    {
      assert keys[k..][1..] == keys[k + 1..];
      var (srcKey, dstKey) := keys[k];
      var srcType := TypeAt(dataOut, srcKey);
      var dstType := TypeAt(dataIn, dstKey);
      if srcType != dstType {
        return Some(IncompatibleTypes(srcKey, src, dstKey, dst, srcType, dstType));
      }
    }
    return None;
  }

  /** The edges as the Kahn sort takes them. */
  function RunEdges(es: seq<Edge>): seq<TopoSort.RunEdge>
  {
    seq(|es|, i requires 0 <= i < |es| => TopoSort.RunEdge(es[i].srcNode, es[i].dstNode, es[i].keys))
  }

  lemma RunEdgesCounted(ids: seq<NodeId>, es: seq<Edge>)
    requires forall i :: 0 <= i < |es| ==> es[i].srcNode in ids && es[i].dstNode in ids
    ensures TopoSort.CountedPairs(ids, RunEdges(es)) == EdgePairs(es)
  {
    var rs := RunEdges(es);
    forall p | p in EdgePairs(es) ensures p in TopoSort.CountedPairs(ids, rs) {
      var i :| 0 <= i < |es| && PairsOf(es)[i] == p;
      assert rs[i] in rs && TopoSort.Counted(ids, rs[i]);
    }
    forall p | p in TopoSort.CountedPairs(ids, rs) ensures p in EdgePairs(es) {
      var e :| e in rs && TopoSort.Counted(ids, e) && (e.src, e.dst) == p;
      var i :| 0 <= i < |rs| && rs[i] == e;
      assert PairsOf(es)[i] == p;
    }
  }

  /** The loop over edges of app/schemas.py:98-124, growing the set `edge_pairs`. */
  method CheckEdges(g: Graph, ids: seq<NodeId>) returns (r: Option<ValidationError>)
    requires ids == NodeIds(g.nodes)
    ensures r == FirstEdgeFailure(g, g.edges, {})
  {
    var edgePairs: set<(NodeId, NodeId)> := {};
    for k := 0 to |g.edges|
      invariant FirstEdgeFailure(g, g.edges, {}) == FirstEdgeFailure(g, g.edges[k..], edgePairs)
    {
      var e := g.edges[k];
      assert g.edges[k..][0] == e && g.edges[k..][1..] == g.edges[k + 1..];
      if e.srcNode !in ids || e.dstNode !in ids {
        return Some(DanglingEdge);
      }
      var edgePair := (e.srcNode, e.dstNode);
      if edgePair in edgePairs {
        return Some(DuplicateEdge(e.srcNode, e.dstNode));
      }
      edgePairs := edgePairs + {edgePair};
      var srcNode := NodeOf(g.nodes, e.srcNode);
      var dstNode := NodeOf(g.nodes, e.dstNode);
      var typeError := CheckKeyTypes(e.srcNode, e.dstNode, srcNode.dataOut, dstNode.dataIn, e.keys);
      if typeError.Some? {
        return typeError;
      }
      if !Listed(e, srcNode.pathsOut) || !Listed(e, dstNode.pathsIn) {
        return Some(ParityError(e.srcNode, e.dstNode));
      }
    }
    assert g.edges[|g.edges|..] == [];
    return None;
  }

  /** `nx.is_directed_acyclic_graph` (app/schemas.py:126-128), decided by whether Kahn's sort lists every node. */
  method IsDirectedAcyclic(ids: seq<NodeId>, edges: seq<TopoSort.RunEdge>) returns (dag: bool)
    requires Distinct(ids)
    ensures dag <==> Acyclic(TopoSort.CountedPairs(ids, edges))
  {
    var order := TopoSort.TopologicalSort(ids, edges);
    dag := |order| == |ids|;
  }

  /** `validate_graph_structure`; raising is returning `Fail`. */
  method ValidateGraphStructure(g: Graph) returns (r: Verdict)
    ensures r == Validation(g)
  {
    var ids := NodeIds(g.nodes);
    DistinctIffCard(ids);
    if |ids| != |Elems(ids)| {
      return Fail(NodeIdsNotUnique);
    }
    var edgeError := CheckEdges(g, ids);
    if edgeError.Some? {
      return Fail(edgeError.value);
    }
    EdgeLoopPasses(g);
    SoundEdgesReferenced(g);
    RunEdgesCounted(ids, g.edges);
    var dag := IsDirectedAcyclic(ids, RunEdges(g.edges));
    if !dag {
      return Fail(NotADag);
    }
    var connected := Connectivity.IsWeaklyConnected(ids, PairsOf(g.edges));
    if !connected {
      return Fail(IsolatedSubgraphs);
    }
    return Pass;
  }

  // ---- The run configuration ----

  /** The `ValueError` of `validate_run_config`. */
  datatype ConfigError = BothListsProvided

  /** `validate_run_config`: the values pass unchanged unless both lists are non-empty. */
  function ValidateRunConfig(enableList: seq<NodeId>, disableList: seq<NodeId>): (r: Option<ConfigError>)
    ensures r.Some? <==> |enableList| > 0 && |disableList| > 0
  {
    if enableList != [] && disableList != [] then Some(BothListsProvided) else None
  }
}
