/**
 * Leaf selection of `get_leaf_outputs` (app/main.py:527-561): the nodes of a
 * run that are not the source of any edge among the run's nodes, with their
 * output data.
 */
module Leaves {
  import opened Seqs
  import opened Values
  import opened Digraph
  import opened Wrappers
  import opened Subgraph

  /** A node attached to the run, with its `data_out` JSON payload (`None` when missing or empty). */
  datatype OutputRow = OutputRow(id: NodeId, dataOut: Option<DataMap>)

  /** The two 404 answers. */
  datatype LeafError = NoOutputData | NoLeafOutputs

  /** `outgoing_nodes`: the sources of the run's edges. */
  function Sources(edges: seq<(NodeId, NodeId)>): set<NodeId>
  {
    set e | e in edges :: e.0
  }

  /** The loop that fills `leaf_outputs`, in row order; a later row with the same id replaces an earlier one. */
  function LeafMap(rows: seq<OutputRow>, sources: set<NodeId>): map<NodeId, DataMap>
  {
    if rows == [] then map[]
    else
      var m := LeafMap(rows[..|rows| - 1], sources);
      var row := rows[|rows| - 1];
      if row.id !in sources then m[row.id := Loaded(row.dataOut)] else m
  }

  ghost predicate LastRowWithId(rows: seq<OutputRow>, id: NodeId, i: int)
  {
    0 <= i < |rows| && rows[i].id == id && forall j :: i < j < |rows| ==> rows[j].id != id
  }

  ghost predicate HasRow(rows: seq<OutputRow>, id: NodeId)
  {
    exists i :: 0 <= i < |rows| && rows[i].id == id
  }

  /** The leaves are exactly the row ids that are no edge's source. */
  lemma {:induction false} LeafMapKeys(rows: seq<OutputRow>, sources: set<NodeId>)
    ensures forall id :: id in LeafMap(rows, sources) <==> id !in sources && HasRow(rows, id)
  {
    if rows != [] {
      var init := rows[..|rows| - 1];
      var row := rows[|rows| - 1];
      LeafMapKeys(init, sources);
      forall id ensures id in LeafMap(rows, sources) <==> id !in sources && HasRow(rows, id) {
        if HasRow(rows, id) && id != row.id {
          var i :| 0 <= i < |rows| && rows[i].id == id;
          assert init[i].id == id;
        }
        if HasRow(init, id) {
          var i :| 0 <= i < |init| && init[i].id == id;
          assert rows[i].id == id;
        }
        assert rows[|rows| - 1] == row;
      }
    }
  }

  /** The row a leaf's output comes from: the last row with its id. */
  lemma {:induction false} LeafRow(rows: seq<OutputRow>, sources: set<NodeId>, id: NodeId) returns (i: nat)
    requires id in LeafMap(rows, sources)
    ensures LastRowWithId(rows, id, i) && LeafMap(rows, sources)[id] == Loaded(rows[i].dataOut)
  {
    var init := rows[..|rows| - 1];
    var row := rows[|rows| - 1];
    if id == row.id && row.id !in sources {
      i := |rows| - 1;
    } else {
      assert id in LeafMap(init, sources) && LeafMap(rows, sources)[id] == LeafMap(init, sources)[id];
      i := LeafRow(init, sources, id);
      LeafMapKeys(init, sources);
      assert rows[i] == init[i];
    }
  }

  /** Each leaf holds the output of its last row. */
  lemma LeafMapValues(rows: seq<OutputRow>, sources: set<NodeId>)
    ensures forall id :: id in LeafMap(rows, sources) ==>
      exists i :: LastRowWithId(rows, id, i) && LeafMap(rows, sources)[id] == Loaded(rows[i].dataOut)
  {
    forall id | id in LeafMap(rows, sources)
      ensures exists i :: LastRowWithId(rows, id, i) && LeafMap(rows, sources)[id] == Loaded(rows[i].dataOut)
    {
      var i := LeafRow(rows, sources, id);
    }
  }

  /** The outcome of leaf selection: 404 without rows, 404 without leaves, else the leaf outputs. */
  function LeafOutputs(rows: seq<OutputRow>, edges: seq<(NodeId, NodeId)>): (r: Result<map<NodeId, DataMap>, LeafError>)
    ensures r == Err(NoOutputData) <==> rows == []
    ensures r == Err(NoLeafOutputs) <==> rows != [] && forall i :: 0 <= i < |rows| ==> rows[i].id in Sources(edges)
    ensures r.Ok? ==> forall id :: (id in r.value <==> id !in Sources(edges) && exists i :: 0 <= i < |rows| && rows[i].id == id)
    ensures r.Ok? ==> forall id :: (id in r.value ==> exists i :: LastRowWithId(rows, id, i) && r.value[id] == Loaded(rows[i].dataOut))
  {
    if rows == [] then Err(NoOutputData)
    else
      var leaves := LeafMap(rows, Sources(edges));
      LeafMapKeys(rows, Sources(edges));
      LeafMapValues(rows, Sources(edges));
      if leaves == map[] then
        assert forall i :: 0 <= i < |rows| ==> rows[i].id in Sources(edges) by {
          forall i | 0 <= i < |rows| ensures rows[i].id in Sources(edges) {
            assert rows[i].id !in leaves;
          }
        }
        Err(NoLeafOutputs)
      else
        assert exists i :: 0 <= i < |rows| && rows[i].id !in Sources(edges) by {
          var id :| id in leaves;
          var i :| 0 <= i < |rows| && rows[i].id == id;
        }
        Ok(leaves)
  }

  /** If every node of a non-empty set is the source of an edge that stays in the set, the edges have a cycle. */
  lemma AllSourcesIsCyclic(s: set<NodeId>, edges: seq<(NodeId, NodeId)>)
    requires s != {}
    requires forall k :: 0 <= k < |edges| ==> edges[k].1 in s
    requires forall u :: u in s ==> u in Sources(edges)
    ensures !Acyclic(Elems(edges))
  {
    forall u | u in s ensures HasSuccessorIn(Elems(edges), s, u) {
      assert u in Sources(edges);
      var k :| 0 <= k < |edges| && edges[k].0 == u;
      assert edges[k] in Elems(edges);
    }
    SuccessorsCloseCycle(Elems(edges), s);
  }

  /**
   * A run over at least one node whose edges form an acyclic graph among
   * those nodes always has a leaf, so it never gets the second 404.
   */
  lemma AcyclicRunHasLeaves(rows: seq<OutputRow>, edges: seq<(NodeId, NodeId)>)
    requires rows != []
    requires forall e :: e in edges ==> exists i :: 0 <= i < |rows| && rows[i].id == e.1
    requires Acyclic(Elems(edges))
    ensures LeafOutputs(rows, edges).Ok?
  {
    if forall i :: 0 <= i < |rows| ==> rows[i].id in Sources(edges) {
      var s := set i | 0 <= i < |rows| :: rows[i].id;
      assert rows[0].id in s;
      forall k | 0 <= k < |edges| ensures edges[k].1 in s {
        assert edges[k] in edges;
      }
      AllSourcesIsCyclic(s, edges);
      assert false;
    }
  }
}
