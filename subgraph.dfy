/**
 * `fetch_subgraph` (app/main.py:328-376) as a filter over the nodes and
 * edges the mirror holds for one graph id. The Cypher queries are replaced
 * by the selections they express.
 */
module Subgraph {
  import opened Seqs
  import opened Values
  import opened Digraph
  import opened Wrappers
  import opened TopoSort

  /** A node record of one graph in the mirror; a missing or empty JSON payload is `None`. */
  datatype StoredNode = StoredNode(nodeId: NodeId, dataIn: Option<DataMap>, dataOut: Option<DataMap>)

  /** An edge between two nodes of the graph in the mirror. */
  datatype StoredEdge = StoredEdge(src: NodeId, dst: NodeId, keys: Option<KeyMap>)

  /** The records the mirror holds for one `graph_id`, in the order it returns them. */
  datatype StoredGraph = StoredGraph(nodes: seq<StoredNode>, edges: seq<StoredEdge>)

  /** `nodes_data`: the dict's keys in insertion order, with each node's `data_in` and `data_out`. */
  datatype NodeTable = NodeTable(ids: seq<NodeId>, dataIn: map<NodeId, DataMap>, dataOut: map<NodeId, DataMap>)

  datatype Fetched = Fetched(table: NodeTable, edges: seq<RunEdge>)

  /** With neither list the code binds no query and raises `UnboundLocalError`. */
  datatype FetchError = NoQueryBound

  /** `json.loads(x) if x else {}`. */
  function Loaded(x: Option<DataMap>): DataMap
  {
    if x.Some? then x.value else map[]
  }

  function LoadedKeys(x: Option<KeyMap>): KeyMap
  {
    if x.Some? then x.value else []
  }

  /** The `WHERE` clause of the nodes query: the enable list when it is non-empty, else the disable list. */
  predicate Selected(id: NodeId, enableList: seq<NodeId>, disableList: seq<NodeId>)
  {
    if enableList != [] then id in enableList else id !in disableList
  }

  /** The node records the nodes query returns, in order. */
  function SelectNodes(ns: seq<StoredNode>, enableList: seq<NodeId>, disableList: seq<NodeId>): (r: seq<StoredNode>)
    ensures forall n :: n in r <==> n in ns && Selected(n.nodeId, enableList, disableList)
  {
    if ns == [] then []
    else
      var last := ns[|ns| - 1];
      SelectNodes(ns[..|ns| - 1], enableList, disableList)
        + (if Selected(last.nodeId, enableList, disableList) then [last] else [])
  }

  /** Record `i` is the last one with id `id`: the one whose payload a dict comprehension keeps. */
  ghost predicate LastWithId(ns: seq<StoredNode>, id: NodeId, i: int)
  {
    0 <= i < |ns| && ns[i].nodeId == id && forall j :: i < j < |ns| ==> ns[j].nodeId != id
  }

  /**
   * The dict comprehension that builds `nodes_data`: a key for each distinct
   * id in first-seen order, holding the payload of the last record with that id.
   */
  function NodesDict(ns: seq<StoredNode>): NodeTable
  {
    if ns == [] then NodeTable([], map[], map[])
    else
      var t := NodesDict(ns[..|ns| - 1]);
      var n := ns[|ns| - 1];
      NodeTable(if n.nodeId in t.dataIn then t.ids else t.ids + [n.nodeId],
                t.dataIn[n.nodeId := Loaded(n.dataIn)], t.dataOut[n.nodeId := Loaded(n.dataOut)])
  }

  /** The ids of a list of records. */
  ghost predicate HasId(ns: seq<StoredNode>, id: NodeId)
  {
    exists i :: 0 <= i < |ns| && ns[i].nodeId == id
  }

  /** The payloads of `id` in the table are those of its last record. */
  ghost predicate HoldsLast(t: NodeTable, ns: seq<StoredNode>, id: NodeId)
    requires id in t.dataIn && id in t.dataOut
  {
    exists i :: LastWithId(ns, id, i) && t.dataIn[id] == Loaded(ns[i].dataIn) && t.dataOut[id] == Loaded(ns[i].dataOut)
  }

  /** `nodes_data` has one key per distinct record id, in first-seen order. */
  lemma {:induction false} NodesDictKeys(ns: seq<StoredNode>)
    ensures var t := NodesDict(ns);
      && Distinct(t.ids)
      && (forall id :: id in t.ids <==> HasId(ns, id))
      && t.dataIn.Keys == Elems(t.ids) && t.dataOut.Keys == Elems(t.ids)
  {
    if ns != [] {
      var init := ns[..|ns| - 1];
      NodesDictKeys(init);
      var t := NodesDict(init);
      var n := ns[|ns| - 1];
      var t' := NodesDict(ns);
      forall id ensures id in t'.ids <==> HasId(ns, id) {
        if HasId(ns, id) && id != n.nodeId {
          var i :| 0 <= i < |ns| && ns[i].nodeId == id;
          assert init[i].nodeId == id;
        }
        if HasId(init, id) {
          var i :| 0 <= i < |init| && init[i].nodeId == id;
          assert ns[i].nodeId == id;
        }
        assert ns[|ns| - 1].nodeId == n.nodeId;
      }
    }
  }

  /** The position of the first record with `id`, or `|ns|` when there is none. */
  function FirstIndex(ns: seq<StoredNode>, id: NodeId): (i: nat)
    ensures i <= |ns|
    ensures i < |ns| ==> ns[i].nodeId == id
    ensures forall j :: 0 <= j < i ==> ns[j].nodeId != id
  {
    if ns == [] then 0
    else if ns[0].nodeId == id then 0
    else 1 + FirstIndex(ns[1..], id)
  }

  /** The keys of `nodes_data` come in the order their ids first occur among the records. */
  lemma {:induction false} NodesDictOrder(ns: seq<StoredNode>)
    ensures var ids := NodesDict(ns).ids;
      forall a, b :: 0 <= a < b < |ids| ==> FirstIndex(ns, ids[a]) < FirstIndex(ns, ids[b])
  {
    if ns != [] {
      var init := ns[..|ns| - 1];
      var n := ns[|ns| - 1];
      assert ns == init + [n];
      NodesDictOrder(init);
      NodesDictKeys(init);
      var ids := NodesDict(init).ids;
      var ids' := NodesDict(ns).ids;
      assert ids' == if n.nodeId in ids then ids else ids + [n.nodeId];
      forall a, b | 0 <= a < b < |ids'| ensures FirstIndex(ns, ids'[a]) < FirstIndex(ns, ids'[b]) {
        assert ids'[a] == ids[a];
        FirstIndexOfPrefix(init, ns, ids[a]);
        if b < |ids| {
          assert ids'[b] == ids[b];
          FirstIndexOfPrefix(init, ns, ids[b]);
        } else {
          FirstIndexOfNew(init, n);
        }
      }
    }
  }

  /** A record whose id no earlier record has is that id's first occurrence. */
  lemma FirstIndexOfNew(init: seq<StoredNode>, n: StoredNode)
    requires !HasId(init, n.nodeId)
    ensures FirstIndex(init + [n], n.nodeId) == |init|
  {
    var ns := init + [n];
    assert ns[|init|] == n;
    assert forall j :: 0 <= j < |init| ==> ns[j] == init[j];
  }

  /** Extending the records does not move the first occurrence of an id already present. */
  lemma FirstIndexOfPrefix(init: seq<StoredNode>, ns: seq<StoredNode>, id: NodeId)
    requires init <= ns && HasId(init, id)
    ensures FirstIndex(ns, id) == FirstIndex(init, id)
  {
    var i :| 0 <= i < |init| && init[i].nodeId == id;
    var k := FirstIndex(init, id);
    assert k <= i;
    assert ns[k] == init[k];
    assert forall j :: 0 <= j < k ==> ns[j] == init[j];
  }

  /** Each key of `nodes_data` holds the payloads of the last record with that id. */
  lemma {:induction false} NodesDictValues(ns: seq<StoredNode>)
    ensures forall id :: id in NodesDict(ns).dataIn && id in NodesDict(ns).dataOut ==> HoldsLast(NodesDict(ns), ns, id)
  {
    if ns != [] {
      var init := ns[..|ns| - 1];
      NodesDictValues(init);
      var t := NodesDict(init);
      assert forall x :: x in t.dataIn && x in t.dataOut ==> HoldsLast(t, init, x);
      var n := ns[|ns| - 1];
      var t' := NodesDict(ns);
      forall id | id in t'.dataIn && id in t'.dataOut ensures HoldsLast(t', ns, id) {
        if id == n.nodeId {
          assert LastWithId(ns, id, |ns| - 1);
        } else {
          assert id in t.dataIn && id in t.dataOut;
          assert HoldsLast(t, init, id);
          var i :| LastWithId(init, id, i) && t.dataIn[id] == Loaded(init[i].dataIn) && t.dataOut[id] == Loaded(init[i].dataOut);
          assert init[i] == ns[i];
          assert LastWithId(ns, id, i);
        }
      }
    }
  }

  /** An edge as `fetch_subgraph` returns it. */
  function AsRunEdge(e: StoredEdge): RunEdge
  {
    RunEdge(e.src, e.dst, LoadedKeys(e.keys))
  }

  /** The edges query: the stored edges whose two endpoints are among `valid`, in order. */
  function KeptEdges(es: seq<StoredEdge>, valid: seq<NodeId>): (r: seq<RunEdge>)
    ensures forall e :: e in r ==> e.src in valid && e.dst in valid
    ensures forall k :: 0 <= k < |es| && es[k].src in valid && es[k].dst in valid ==> AsRunEdge(es[k]) in r
    ensures forall e :: e in r ==> exists k :: 0 <= k < |es| && e == AsRunEdge(es[k])
  {
    if es == [] then []
    else
      var init := es[..|es| - 1];
      var e := es[|es| - 1];
      var r := KeptEdges(init, valid) + (if e.src in valid && e.dst in valid then [AsRunEdge(e)] else []);
      assert forall k :: 0 <= k < |init| ==> init[k] == es[k];
      r
  }

  /** Keeping edges is an order-preserving filter: the kept edges of a concatenation are the kept edges of each part, in turn. */
  lemma {:induction false} KeptEdgesAppend(es: seq<StoredEdge>, more: seq<StoredEdge>, valid: seq<NodeId>)
    ensures KeptEdges(es + more, valid) == KeptEdges(es, valid) + KeptEdges(more, valid)
    decreases |more|
  {
    if more == [] {
      assert es + more == es;
    } else {
      var init := more[..|more| - 1];
      var e := more[|more| - 1];
      assert (es + more)[..|es + more| - 1] == es + init;
      KeptEdgesAppend(es, init, valid);
    }
  }

  /** A single stored edge is kept, as it is, exactly when both of its ends are selected. */
  lemma KeptEdgesSingle(e: StoredEdge, valid: seq<NodeId>)
    ensures KeptEdges([e], valid) == if e.src in valid && e.dst in valid then [AsRunEdge(e)] else []
  {
    assert [e][..0] == [];
  }

  /** The `(src, dst)` pairs of every stored edge of the graph. */
  function StoredPairs(s: StoredGraph): Rel
  {
    set e | e in s.edges :: (e.src, e.dst)
  }

  /** The ids of the nodes dict are the stored ids the lists select. */
  lemma SelectedIds(ns: seq<StoredNode>, enableList: seq<NodeId>, disableList: seq<NodeId>)
    ensures forall id :: (id in NodesDict(SelectNodes(ns, enableList, disableList)).ids
      <==> (exists k :: 0 <= k < |ns| && ns[k].nodeId == id) && Selected(id, enableList, disableList))
  {
    var selected := SelectNodes(ns, enableList, disableList);
    var t := NodesDict(selected);
    NodesDictKeys(selected);
    forall id | id in t.ids
      ensures (exists k :: 0 <= k < |ns| && ns[k].nodeId == id) && Selected(id, enableList, disableList)
    {
      var i :| 0 <= i < |selected| && selected[i].nodeId == id;
      assert selected[i] in selected;
    }
    forall id | (exists k :: 0 <= k < |ns| && ns[k].nodeId == id) && Selected(id, enableList, disableList)
      ensures id in t.ids
    {
      var k :| 0 <= k < |ns| && ns[k].nodeId == id;
      assert ns[k] in selected;
    }
  }

  /** Every counted pair of the kept edges is the pair of a stored edge. */
  lemma KeptPairsStored(s: StoredGraph, valid: seq<NodeId>)
    ensures CountedPairs(valid, KeptEdges(s.edges, valid)) <= StoredPairs(s)
  {
    var edges := KeptEdges(s.edges, valid);
    forall p | p in CountedPairs(valid, edges) ensures p in StoredPairs(s) {
      var e :| e in edges && Counted(valid, e) && (e.src, e.dst) == p;
      var k :| 0 <= k < |s.edges| && e == AsRunEdge(s.edges[k]);
      assert s.edges[k] in s.edges;
    }
  }

  /** `fetch_subgraph`. */
  function FetchSubgraph(s: StoredGraph, enableList: seq<NodeId>, disableList: seq<NodeId>): (r: Result<Fetched, FetchError>)
    ensures r.Err? <==> enableList == [] && disableList == []
    ensures r.Ok? ==> Distinct(r.value.table.ids)
    ensures r.Ok? ==> r.value.table.dataIn.Keys == Elems(r.value.table.ids) && r.value.table.dataOut.Keys == Elems(r.value.table.ids)
    ensures r.Ok? ==> forall id ::
      (id in r.value.table.ids <==> (exists k :: 0 <= k < |s.nodes| && s.nodes[k].nodeId == id) && Selected(id, enableList, disableList))
    ensures r.Ok? ==> forall e :: e in r.value.edges ==> e.src in r.value.table.ids && e.dst in r.value.table.ids
    ensures r.Ok? ==> forall k :: (0 <= k < |s.edges| && s.edges[k].src in r.value.table.ids && s.edges[k].dst in r.value.table.ids
      ==> AsRunEdge(s.edges[k]) in r.value.edges)
    ensures r.Ok? ==> CountedPairs(r.value.table.ids, r.value.edges) <= StoredPairs(s)
    ensures r.Ok? ==> r.value.edges == KeptEdges(s.edges, r.value.table.ids)
  {
    if enableList == [] && disableList == [] then Err(NoQueryBound)
    else
      var selected := SelectNodes(s.nodes, enableList, disableList);
      var t := NodesDict(selected);
      var edges := KeptEdges(s.edges, t.ids);
      NodesDictKeys(selected);
      SelectedIds(s.nodes, enableList, disableList);
      KeptPairsStored(s, t.ids);
      Ok(Fetched(t, edges))
  }
}
