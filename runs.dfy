/**
 * `run_graph` (app/main.py:287-326): the configuration guard, then fetch,
 * seed, sort, propagate and save, in that order. `save_run_data`
 * (app/main.py:437-462) is a keyed update of the runs the mirror holds.
 */
module Runs {
  import opened Seqs
  import opened Values
  import opened Digraph
  import opened Wrappers
  import opened TopoSort
  import opened Subgraph
  import opened RunData
  import Schemas

  /** `GraphRunConfig` (app/schemas.py:170-177). */
  datatype RunConfig = RunConfig(
    graphId: string,
    rootInputs: map<NodeId, DataMap>,
    dataOverwrites: map<NodeId, DataMap>,
    enableList: seq<NodeId>,
    disableList: seq<NodeId>)

  /** The 400 answer, or the error `fetch_subgraph` raises. */
  datatype RunError = BothListsGiven | FetchFailed(cause: FetchError)

  /** A `Run` node: its topological order and the `data_out` on each node's `OUTPUT` relationship. */
  datatype RunRecord = RunRecord(topoOrder: seq<NodeId>, outputs: map<NodeId, DataMap>)

  /** Runs keyed by `(run_id, graph_id)`, as the `MERGE` clauses key them. */
  type RunStore = map<(string, string), RunRecord>

  /**
   * `save_run_data`: merge the run, set its order, and set the `data_out` of
   * every node's output relationship; outputs of other nodes already merged are kept.
   */
  function SaveRunData(runs: RunStore, runId: string, graphId: string, topo: seq<NodeId>, outputs: map<NodeId, DataMap>)
    : (r: RunStore)
    ensures r.Keys == runs.Keys + {(runId, graphId)}
    ensures forall key :: key in runs && key != (runId, graphId) ==> r[key] == runs[key]
    ensures r[(runId, graphId)].topoOrder == topo
    ensures forall x :: x in outputs ==> x in r[(runId, graphId)].outputs && r[(runId, graphId)].outputs[x] == outputs[x]
    ensures forall x :: x !in outputs ==>
      (x in r[(runId, graphId)].outputs <==> (runId, graphId) in runs && x in runs[(runId, graphId)].outputs)
    ensures forall x :: x !in outputs && x in r[(runId, graphId)].outputs ==>
      r[(runId, graphId)].outputs[x] == runs[(runId, graphId)].outputs[x]
  {
    var key := (runId, graphId);
    var kept := if key in runs then runs[key].outputs else map[];
    runs[key := RunRecord(topo, kept + outputs)]
  }

  /** Saving the same run twice leaves the store as saving it once. */
  lemma SaveRunDataIdempotent(runs: RunStore, runId: string, graphId: string, topo: seq<NodeId>, outputs: map<NodeId, DataMap>)
    ensures var once := SaveRunData(runs, runId, graphId, topo, outputs);
      SaveRunData(once, runId, graphId, topo, outputs) == once
  {
    var key := (runId, graphId);
    var once := SaveRunData(runs, runId, graphId, topo, outputs);
    var kept := if key in runs then runs[key].outputs else map[];
    assert (kept + outputs) + outputs == kept + outputs;
  }

  /** What a run leaves behind: the run store, and the propagated `data_in` that stays in memory. */
  datatype RunOutcome = RunOutcome(runs: RunStore, dataIn: map<NodeId, DataMap>)

  /** `run_graph`; the run id is a fresh value supplied by the caller in place of `uuid4()`. */
  method RunGraph(config: RunConfig, stored: StoredGraph, runId: string, runs: RunStore) returns (r: Result<RunOutcome, RunError>)
    ensures r == Err(BothListsGiven) <==> Schemas.ValidateRunConfig(config.enableList, config.disableList).Some?
    ensures r == Err(FetchFailed(NoQueryBound)) <==> config.enableList == [] && config.disableList == []
    ensures r.Ok? ==> FetchSubgraph(stored, config.enableList, config.disableList).Ok?
    ensures r.Ok? ==> (runId, config.graphId) in r.value.runs
    ensures r.Ok? ==>
      var f := FetchSubgraph(stored, config.enableList, config.disableList).value;
      var key := (runId, config.graphId);
      var topo := r.value.runs[key].topoOrder;
      && r.value.runs == SaveRunData(runs, runId, config.graphId, topo, f.table.dataOut)
      && Distinct(topo) && (forall x :: x in topo ==> x in f.table.ids)
      && topo == KahnOrder(Adjacency(f.table.ids, f.edges), InDegrees(f.table.ids, f.edges),
                           ZeroInDegree(f.table.ids, InDegrees(f.table.ids, f.edges)), |f.table.ids|)
      && EdgesRespected(f.table.ids, f.edges, topo)
      && (|topo| == |f.table.ids| <==> Acyclic(CountedPairs(f.table.ids, f.edges)))
      && (Acyclic(StoredPairs(stored)) ==> |topo| == |f.table.ids|)
      && r.value.dataIn == ApplyWrites(
           Seeded(f.table.dataIn, config.rootInputs, config.dataOverwrites),
           f.table.dataOut,
           Writes(Adjacency(f.table.ids, f.edges), topo))
  {
    if config.enableList != [] && config.disableList != [] {
      return Err(BothListsGiven);
    }
    var fetched := FetchSubgraph(stored, config.enableList, config.disableList);
    if fetched.Err? {
      return Err(FetchFailed(fetched.error));
    }
    var f := fetched.value;
    var nodesData := new NodesData(f.table.ids, f.table.dataIn, f.table.dataOut);
    nodesData.ApplyInputsAndOverwrites(config.rootInputs, config.dataOverwrites);
    var topo := TopologicalSort(nodesData.ids, f.edges);
    nodesData.PropagateData(f.edges, topo);
    var saved := SaveRunData(runs, runId, config.graphId, topo, nodesData.dataOut);
    if Acyclic(StoredPairs(stored)) {
      AcyclicSubset(StoredPairs(stored), CountedPairs(f.table.ids, f.edges));
    }
    return Ok(RunOutcome(saved, nodesData.dataIn));
  }
}
