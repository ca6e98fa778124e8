/**
 * The `nodes_data` dictionary of a run and the two steps that change it in
 * place: `apply_inputs_and_overwrites` (app/main.py:378-389) and
 * `propagate_data` (app/main.py:422-435).
 */
module RunData {
  import opened Seqs
  import opened Values
  import opened Digraph
  import opened TopoSort

  // ---- Seeding ----

  /** The `data_in` of every node after `data_in.update(inputs[id])` for each id of `inputs` that is a node. */
  function Merge(dataIn: map<NodeId, DataMap>, inputs: map<NodeId, DataMap>): map<NodeId, DataMap>
  {
    map x | x in dataIn :: if x in inputs then Update(dataIn[x], inputs[x]) else dataIn[x]
  }

  /** The same, once only the ids in `done` have been updated. */
  function MergeSome(dataIn: map<NodeId, DataMap>, inputs: map<NodeId, DataMap>, done: set<NodeId>): map<NodeId, DataMap>
  {
    map x | x in dataIn :: if x in inputs && x in done then Update(dataIn[x], inputs[x]) else dataIn[x]
  }

  /** Root inputs first, then overwrites. */
  function Seeded(dataIn: map<NodeId, DataMap>, rootInputs: map<NodeId, DataMap>, overwrites: map<NodeId, DataMap>)
    : (r: map<NodeId, DataMap>)
    ensures r.Keys == dataIn.Keys
    ensures forall x, k :: x in r && x in overwrites && k in overwrites[x] ==> k in r[x] && r[x][k] == overwrites[x][k]
    ensures forall x, k :: (x in r && !(x in overwrites && k in overwrites[x]) && x in rootInputs && k in rootInputs[x]
      ==> k in r[x] && r[x][k] == rootInputs[x][k])
    ensures forall x, k :: (x in r && !(x in overwrites && k in overwrites[x]) && !(x in rootInputs && k in rootInputs[x])
      ==> (k in r[x] <==> k in dataIn[x]) && (k in dataIn[x] ==> r[x][k] == dataIn[x][k]))
  {
    Merge(Merge(dataIn, rootInputs), overwrites)
  }

  lemma MergeSomeStep(dataIn: map<NodeId, DataMap>, inputs: map<NodeId, DataMap>, done: set<NodeId>, x: NodeId)
    requires x in inputs && x !in done
    ensures var m := MergeSome(dataIn, inputs, done);
      MergeSome(dataIn, inputs, done + {x}) == if x in dataIn then m[x := Update(m[x], inputs[x])] else m
  {
  }

  lemma MergeSomeKeys(dataIn: map<NodeId, DataMap>, inputs: map<NodeId, DataMap>, done: set<NodeId>)
    ensures MergeSome(dataIn, inputs, done).Keys == dataIn.Keys
  {
  }

  /** Before any update the data is unchanged; after every id of `inputs` it is `Merge`. */
  lemma MergeSomeEnds(dataIn: map<NodeId, DataMap>, inputs: map<NodeId, DataMap>)
    ensures MergeSome(dataIn, inputs, {}) == dataIn
    ensures MergeSome(dataIn, inputs, inputs.Keys) == Merge(dataIn, inputs)
  {
  }

  // ---- Propagation ----

  /** One assignment `nodes_data[dst]["data_in"][dstKey] = nodes_data[src]["data_out"].get(srcKey)`. */
  datatype Write = Write(dst: NodeId, dstKey: string, src: NodeId, srcKey: string)

  /** The assignments of one edge, in the order of its key map. */
  function EdgeWrites(e: RunEdge): (ws: seq<Write>)
    ensures |ws| == |e.keys|
    ensures forall i :: 0 <= i < |ws| ==> ws[i] == Write(e.dst, e.keys[i].1, e.src, e.keys[i].0)
  {
    seq(|e.keys|, i requires 0 <= i < |e.keys| => Write(e.dst, e.keys[i].1, e.src, e.keys[i].0))
  }

  /** The assignments of a list of edges, edge after edge. */
  function ListWrites(es: seq<RunEdge>): seq<Write>
  {
    if es == [] then [] else ListWrites(es[..|es| - 1]) + EdgeWrites(es[|es| - 1])
  }

  /** The assignments of a whole propagation: node after node in `topo`, each node's outgoing edges in list order. */
  function Writes(adj: map<NodeId, seq<RunEdge>>, topo: seq<NodeId>): seq<Write>
  {
    if topo == [] then []
    else
      var u := topo[|topo| - 1];
      Writes(adj, topo[..|topo| - 1]) + (if u in adj then ListWrites(adj[u]) else [])
  }

  /** The value an assignment reads: `data_out.get(srcKey)`, `None` when absent. */
  function ReadOf(dataOut: map<NodeId, DataMap>, w: Write): Value
  {
    Get(if w.src in dataOut then dataOut[w.src] else map[], w.srcKey)
  }

  function ApplyWrite(dataIn: map<NodeId, DataMap>, dataOut: map<NodeId, DataMap>, w: Write): map<NodeId, DataMap>
  {
    if w.dst in dataIn then dataIn[w.dst := dataIn[w.dst][w.dstKey := ReadOf(dataOut, w)]] else dataIn
  }

  /** The assignments carried out in order; `data_out` is only read. */
  function ApplyWrites(dataIn: map<NodeId, DataMap>, dataOut: map<NodeId, DataMap>, ws: seq<Write>): (r: map<NodeId, DataMap>)
    ensures r.Keys == dataIn.Keys
  {
    if ws == [] then dataIn else ApplyWrite(ApplyWrites(dataIn, dataOut, ws[..|ws| - 1]), dataOut, ws[|ws| - 1])
  }

  predicate Targets(w: Write, x: NodeId, k: string)
  {
    w.dst == x && w.dstKey == k
  }

  /** The position of the last assignment to key `k` of node `x`, or -1 when there is none. */
  function LastWrite(ws: seq<Write>, x: NodeId, k: string): (i: int)
    ensures -1 <= i < |ws|
    ensures i >= 0 ==> Targets(ws[i], x, k)
    ensures forall j :: i < j < |ws| ==> !Targets(ws[j], x, k)
  {
    if ws == [] then -1
    else if Targets(ws[|ws| - 1], x, k) then |ws| - 1
    else LastWrite(ws[..|ws| - 1], x, k)
  }

  /**
   * Last write wins: after the assignments, key `k` of node `x` holds what the
   * last assignment to it read, and a key no assignment targets is untouched.
   */
  lemma {:induction false} LastWriteWins(dataIn: map<NodeId, DataMap>, dataOut: map<NodeId, DataMap>, ws: seq<Write>, x: NodeId, k: string)
    requires x in dataIn
    ensures var r := ApplyWrites(dataIn, dataOut, ws)[x];
      var i := LastWrite(ws, x, k);
      && (i >= 0 ==> k in r && r[k] == ReadOf(dataOut, ws[i]))
      && (i < 0 ==> (k in r <==> k in dataIn[x]) && (k in dataIn[x] ==> r[k] == dataIn[x][k]))
  {
    if ws != [] {
      var init, w := ws[..|ws| - 1], ws[|ws| - 1];
      var prev := ApplyWrites(dataIn, dataOut, init);
      LastWriteWins(dataIn, dataOut, init, x, k);
      assert ApplyWrites(dataIn, dataOut, ws) == ApplyWrite(prev, dataOut, w);
      assert ApplyWrite(prev, dataOut, w)[x] == if w.dst == x then prev[x][w.dstKey := ReadOf(dataOut, w)] else prev[x];
      if !Targets(w, x, k) {
        assert LastWrite(ws, x, k) == LastWrite(init, x, k);
      }
    }
  }

  /** Propagating a second time with the same `data_out` changes nothing. */
  lemma PropagationIdempotent(dataIn: map<NodeId, DataMap>, dataOut: map<NodeId, DataMap>, ws: seq<Write>)
    ensures var once := ApplyWrites(dataIn, dataOut, ws);
      ApplyWrites(once, dataOut, ws) == once
  {
    var once := ApplyWrites(dataIn, dataOut, ws);
    var twice := ApplyWrites(once, dataOut, ws);
    forall x | x in once ensures twice[x] == once[x] {
      forall k ensures (k in twice[x] <==> k in once[x]) && (k in once[x] ==> twice[x][k] == once[x][k]) {
        LastWriteWins(dataIn, dataOut, ws, x, k);
        LastWriteWins(once, dataOut, ws, x, k);
      }
    }
  }

  /** Assignments split at any point: the effect of `a + b` is that of `a`, then `b`. */
  lemma {:induction false} ApplyWritesAppend(dataIn: map<NodeId, DataMap>, dataOut: map<NodeId, DataMap>, a: seq<Write>, b: seq<Write>)
    ensures ApplyWrites(dataIn, dataOut, a + b) == ApplyWrites(ApplyWrites(dataIn, dataOut, a), dataOut, b)
    decreases |b|
  {
    if b != [] {
      assert (a + b)[..|a + b| - 1] == a + b[..|b| - 1];
      ApplyWritesAppend(dataIn, dataOut, a, b[..|b| - 1]);
    } else {
      assert a + b == a;
    }
  }

  // ---- The dictionary and its in-place steps ----

  class NodesData {
    /** The keys of `nodes_data`, in insertion order. */
    const ids: seq<NodeId>
    var dataIn: map<NodeId, DataMap>
    var dataOut: map<NodeId, DataMap>

    ghost predicate Valid()
      reads this
    {
      Distinct(ids) && dataIn.Keys == Elems(ids) && dataOut.Keys == Elems(ids)
    }

    constructor (ids: seq<NodeId>, dataIn: map<NodeId, DataMap>, dataOut: map<NodeId, DataMap>)
      requires Distinct(ids) && dataIn.Keys == Elems(ids) && dataOut.Keys == Elems(ids)
      ensures Valid()
      ensures this.ids == ids && this.dataIn == dataIn && this.dataOut == dataOut
    {
      this.ids := ids;
      this.dataIn := dataIn;
      this.dataOut := dataOut;
    }

    /** `for node_id, inputs in inputs.items(): if node_id in nodes_data: nodes_data[node_id]["data_in"].update(inputs)`. */
    method UpdateEach(inputs: map<NodeId, DataMap>)
      requires Valid()
      modifies this
      ensures Valid()
      ensures dataIn == Merge(old(dataIn), inputs) && dataOut == old(dataOut)
    {
      ghost var start := dataIn;
      var pending := inputs.Keys;
      MergeSomeEnds(start, inputs);
      assert inputs.Keys - pending == {};
      while pending != {}
        invariant pending <= inputs.Keys
        invariant dataIn == MergeSome(start, inputs, inputs.Keys - pending)
        invariant dataOut == old(dataOut)
        decreases pending
      {
        var x :| x in pending;
        ghost var done := inputs.Keys - pending;
        UpdateOne(inputs, x, start, done);
        pending := pending - {x};
        assert inputs.Keys - pending == done + {x};
      }
      MergeSomeKeys(start, inputs, inputs.Keys);
    }

    /** One turn of the loop: `nodes_data[x]["data_in"].update(inputs[x])` when `x` is a node. */
    method UpdateOne(inputs: map<NodeId, DataMap>, x: NodeId, ghost start: map<NodeId, DataMap>, ghost done: set<NodeId>)
      requires x in inputs && x !in done
      requires dataIn == MergeSome(start, inputs, done)
      modifies this
      ensures dataIn == MergeSome(start, inputs, done + {x}) && dataOut == old(dataOut)
    {
      MergeSomeStep(start, inputs, done, x);
      if x in dataIn {
        dataIn := dataIn[x := Update(dataIn[x], inputs[x])];
      }
    }

    /** `apply_inputs_and_overwrites`: root inputs, then overwrites; `data_out` is untouched. */
    method ApplyInputsAndOverwrites(rootInputs: map<NodeId, DataMap>, overwrites: map<NodeId, DataMap>)
      requires Valid()
      modifies this
      ensures Valid()
      ensures dataIn == Seeded(old(dataIn), rootInputs, overwrites)
      ensures dataOut == old(dataOut)
    {
      UpdateEach(rootInputs);
      UpdateEach(overwrites);
    }

    /** The assignments of one edge (the innermost loop of app/main.py:432-435). */
    method PropagateEdge(e: RunEdge)
      requires Valid() && e.src in dataOut && e.dst in dataIn
      modifies this
      ensures Valid()
      ensures dataIn == ApplyWrites(old(dataIn), dataOut, EdgeWrites(e)) && dataOut == old(dataOut)
    {
      ghost var start := dataIn;
      var keys := e.keys;
      for m := 0 to |keys|
        invariant Valid() && dataOut == old(dataOut)
        invariant dataIn == ApplyWrites(start, dataOut, EdgeWrites(e)[..m])
      {
        var (srcKey, dstKey) := keys[m];
        var dstDataIn := dataIn[e.dst];
        var srcDataOut := dataOut[e.src];
        dataIn := dataIn[e.dst := dstDataIn[dstKey := Get(srcDataOut, srcKey)]];
        assert EdgeWrites(e)[..m + 1][..m] == EdgeWrites(e)[..m];
      }
      assert EdgeWrites(e)[..|keys|] == EdgeWrites(e);
    }

    /** The edges of one node, in list order (the middle loop of app/main.py:430-435). */
    method PropagateEdges(es: seq<RunEdge>)
      requires Valid() && forall e :: e in es ==> e.src in ids && e.dst in ids
      modifies this
      ensures Valid()
      ensures dataIn == ApplyWrites(old(dataIn), dataOut, ListWrites(es)) && dataOut == old(dataOut)
    {
      ghost var start := dataIn;
      for j := 0 to |es|
        invariant Valid() && dataOut == old(dataOut)
        invariant dataIn == ApplyWrites(start, dataOut, ListWrites(es[..j]))
      {
        PropagateEdge(es[j]);
        assert es[..j + 1][..j] == es[..j];
        ApplyWritesAppend(start, dataOut, ListWrites(es[..j]), EdgeWrites(es[j]));
      }
      assert es[..|es|] == es;
    }

    /** The adjacency dict of app/main.py:425-427; every edge's source is a node, or the code raises `KeyError`. */
    method GroupBySource(edges: seq<RunEdge>) returns (adj: map<NodeId, seq<RunEdge>>)
      requires forall e :: e in edges ==> e.src in ids && e.dst in ids
      ensures adj == Adjacency(ids, edges)
    {
      adj := map x | x in ids :: [];
      assert adj == Adjacency(ids, []);
      for k := 0 to |edges|
        invariant adj == Adjacency(ids, edges[..k])
      {
        var e := edges[k];
        AdjacencyStep(ids, edges[..k], e);
        assert edges[..k + 1] == edges[..k] + [e];
        adj := adj[e.src := adj[e.src] + [e]];
      }
      assert edges[..|edges|] == edges;
    }

    /**
     * `propagate_data`: for each node in `topo`, for each of its outgoing
     * edges, copy each mapped key. `data_out` is only read.
     */
    method PropagateData(edges: seq<RunEdge>, topo: seq<NodeId>)
      requires Valid()
      requires forall e :: e in edges ==> e.src in ids && e.dst in ids
      requires forall x :: x in topo ==> x in ids
      modifies this
      ensures Valid()
      ensures dataIn == ApplyWrites(old(dataIn), dataOut, Writes(Adjacency(ids, edges), topo))
      ensures dataOut == old(dataOut)
    {
      var adj := GroupBySource(edges);
      ghost var start := dataIn;
      for i := 0 to |topo|
        invariant Valid() && dataOut == old(dataOut)
        invariant dataIn == ApplyWrites(start, dataOut, Writes(adj, topo[..i]))
      {
        var node := topo[i];
        OutEdgesShape(ids, edges, node);
        PropagateEdges(adj[node]);
        assert topo[..i + 1][..i] == topo[..i] && topo[..i + 1][i] == node;
        ApplyWritesAppend(start, dataOut, Writes(adj, topo[..i]), ListWrites(adj[node]));
      }
      assert topo[..|topo|] == topo;
    }
  }
}
