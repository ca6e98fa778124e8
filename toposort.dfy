/**
 * `topological_sort` of the run pipeline (app/main.py:391-420): Kahn's
 * algorithm over the fetched node ids, with in-degree and adjacency
 * dictionaries and a FIFO queue.
 */
module TopoSort {
  import opened Seqs
  import opened Values
  import opened Digraph

  /** An edge of a fetched subgraph: the dict `{"src", "dst", "src_to_dst_data_keys"}`. */
  datatype RunEdge = RunEdge(src: NodeId, dst: NodeId, keys: KeyMap)

  /** The sort only counts edges whose two endpoints are among the node ids (app/main.py:404). */
  predicate Counted(ids: seq<NodeId>, e: RunEdge)
  {
    e.src in ids && e.dst in ids
  }

  /** The graph the sort works on: the counted edges as (src, dst) pairs. */
  ghost function CountedPairs(ids: seq<NodeId>, edges: seq<RunEdge>): Rel
  {
    set e | e in edges && Counted(ids, e) :: (e.src, e.dst)
  }

  /** The number of counted edges into `v` whose source is not in `done`. */
  function InCount(ids: seq<NodeId>, edges: seq<RunEdge>, v: NodeId, done: set<NodeId>): nat
  {
    if edges == [] then 0
    else
      var e := edges[|edges| - 1];
      InCount(ids, edges[..|edges| - 1], v, done)
        + (if Counted(ids, e) && e.dst == v && e.src !in done then 1 else 0)
  }

  /** `adjacency_list[u]`: the counted edges leaving `u`, in list order. */
  function OutEdges(ids: seq<NodeId>, edges: seq<RunEdge>, u: NodeId): seq<RunEdge>
  {
    if edges == [] then []
    else
      var e := edges[|edges| - 1];
      OutEdges(ids, edges[..|edges| - 1], u) + (if Counted(ids, e) && e.src == u then [e] else [])
  }

  /** The number of edges of a list that end in `v`. */
  function CountTo(es: seq<RunEdge>, v: NodeId): nat
  {
    if es == [] then 0
    else CountTo(es[..|es| - 1], v) + (if es[|es| - 1].dst == v then 1 else 0)
  }

  /** The in-degree of every node before any node is removed. */
  function InDegrees(ids: seq<NodeId>, edges: seq<RunEdge>): map<NodeId, int>
  {
    map v | v in ids :: InCount(ids, edges, v, {})
  }

  /** The initial queue: the nodes of in-degree zero, in node order (app/main.py:408). */
  function ZeroInDegree(ids: seq<NodeId>, deg: map<NodeId, int>): (r: seq<NodeId>)
    requires forall v :: v in ids ==> v in deg
    ensures forall v :: v in r <==> v in ids && deg[v] == 0
    ensures Distinct(ids) ==> Distinct(r)
    ensures Distinct(ids) ==> forall i, j :: 0 <= i < j < |r| ==> IndexOf(ids, r[i]) < IndexOf(ids, r[j])
  {
    if ids == [] then []
    else if deg[ids[0]] == 0 then [ids[0]] + ZeroInDegree(ids[1..], deg)
    else ZeroInDegree(ids[1..], deg)
  }

  lemma {:induction false} OutEdgesShape(ids: seq<NodeId>, edges: seq<RunEdge>, u: NodeId)
    ensures forall e :: e in OutEdges(ids, edges, u) ==> Counted(ids, e) && e.src == u
  {
    if edges != [] {
      OutEdgesShape(ids, edges[..|edges| - 1], u);
    }
  }

  lemma {:induction false} CountToConcat(a: seq<RunEdge>, b: seq<RunEdge>, v: NodeId)
    ensures CountTo(a + b, v) == CountTo(a, v) + CountTo(b, v)
  {
    if b != [] {
      assert (a + b)[..|a + b| - 1] == a + b[..|b| - 1];
      CountToConcat(a, b[..|b| - 1], v);
    } else {
      assert a + b == a;
    }
  }

  /**
   * Removing `u` lowers the in-degree of each `v` by the number of counted
   * edges from `u` to `v`: the decrements of app/main.py:414-416.
   */
  lemma {:induction false} InCountRemove(ids: seq<NodeId>, edges: seq<RunEdge>, v: NodeId, done: set<NodeId>, u: NodeId)
    requires u !in done
    ensures InCount(ids, edges, v, done) == InCount(ids, edges, v, done + {u}) + CountTo(OutEdges(ids, edges, u), v)
  {
    if edges != [] {
      var init := edges[..|edges| - 1];
      var e := edges[|edges| - 1];
      InCountRemove(ids, init, v, done, u);
      var tail := if Counted(ids, e) && e.src == u then [e] else [];
      CountToConcat(OutEdges(ids, init, u), tail, v);
      if tail != [] {
        assert tail[..0] == [];
      }
    }
  }

  /** An in-degree of zero means every counted edge into `v` comes from `done`. */
  lemma {:induction false} InCountZero(ids: seq<NodeId>, edges: seq<RunEdge>, v: NodeId, done: set<NodeId>)
    requires InCount(ids, edges, v, done) == 0
    ensures forall k :: 0 <= k < |edges| && Counted(ids, edges[k]) && edges[k].dst == v ==> edges[k].src in done
  {
    if edges != [] {
      InCountZero(ids, edges[..|edges| - 1], v, done);
    }
  }

  /** A positive in-degree is witnessed by a counted edge into `v` from outside `done`. */
  lemma {:induction false} InCountPositive(ids: seq<NodeId>, edges: seq<RunEdge>, v: NodeId, done: set<NodeId>) returns (k: nat)
    requires InCount(ids, edges, v, done) > 0
    ensures k < |edges| && Counted(ids, edges[k]) && edges[k].dst == v && edges[k].src !in done
  {
    var e := edges[|edges| - 1];
    if Counted(ids, e) && e.dst == v && e.src !in done {
      k := |edges| - 1;
    } else {
      k := InCountPositive(ids, edges[..|edges| - 1], v, done);
    }
  }

  /** Every node with all its counted predecessors in `order`, and none in a cycle, is listed: the complete case. */
  lemma CompleteOrderIsAcyclic(ids: seq<NodeId>, edges: seq<RunEdge>, order: seq<NodeId>)
    requires Distinct(ids) && Distinct(order) && |order| == |ids|
    requires forall x :: x in order ==> x in ids
    requires forall k, i :: 0 <= k < |edges| && 0 <= i < |order| && Counted(ids, edges[k]) && edges[k].dst == order[i]
               ==> edges[k].src in order[..i]
    ensures Acyclic(CountedPairs(ids, edges))
  {
    var r := CountedPairs(ids, edges);
    forall e | e in r
      ensures e.0 in order && e.1 in order && IndexOf(order, e.0) < IndexOf(order, e.1)
    {
      var k :| 0 <= k < |edges| && Counted(ids, edges[k]) && e == (edges[k].src, edges[k].dst);
      if e.1 !in order {
        DistinctWithin(order, Elems(ids) - {e.1});
        DistinctCard(ids);
        assert false;
      }
      var i := IndexOf(order, e.1);
      assert edges[k].src in order[..i];
      var m :| 0 <= m < i && order[m] == e.0;
      IndexOfDistinct(order, m);
    }
    OrderedIsAcyclic(r, order);
  }

  /** When the queue has drained early, the nodes never output all have a predecessor among themselves. */
  lemma ShortOrderIsCyclic(ids: seq<NodeId>, edges: seq<RunEdge>, order: seq<NodeId>)
    requires Distinct(ids) && Distinct(order) && |order| < |ids|
    requires forall v :: v in ids && v !in order ==> InCount(ids, edges, v, Elems(order)) > 0
    ensures !Acyclic(CountedPairs(ids, edges))
  {
    var rest := Elems(ids) - Elems(order);
    if rest == {} {
      forall i | 0 <= i < |ids| ensures ids[i] in Elems(order) {
        assert ids[i] in Elems(ids);
        assert ids[i] !in rest;
      }
      DistinctWithin(ids, Elems(order));
      DistinctCard(order);
      assert false;
    }
    var r := CountedPairs(ids, edges);
    forall v | v in rest ensures HasPredecessorIn(r, rest, v) {
      var k := InCountPositive(ids, edges, v, Elems(order));
      assert (edges[k].src, v) in r;
    }
    PredecessorsCloseCycle(r, rest);
  }

  /** `adjacency_list`: for each node, its counted outgoing edges in list order. */
  function Adjacency(ids: seq<NodeId>, edges: seq<RunEdge>): map<NodeId, seq<RunEdge>>
  {
    map u | u in ids :: OutEdges(ids, edges, u)
  }

  /** `in_degree[v]` counts the counted edges into `v` from nodes not yet output, plus those in `pending`. */
  ghost predicate DegreesTrack(ids: seq<NodeId>, edges: seq<RunEdge>, inDeg: map<NodeId, int>, done: set<NodeId>, pending: seq<RunEdge>)
  {
    forall v :: v in ids ==> v in inDeg && inDeg[v] == InCount(ids, edges, v, done) + CountTo(pending, v)
  }

  /** The nodes output or queued so far (`seen`) are distinct node ids, exactly those of in-degree zero. */
  ghost predicate QueueTracks(ids: seq<NodeId>, inDeg: map<NodeId, int>, seen: seq<NodeId>)
    requires forall v :: v in ids ==> v in inDeg
  {
    Distinct(seen) && (forall x :: x in seen ==> x in ids) && forall v :: v in ids ==> (v in seen <==> inDeg[v] == 0)
  }

  /** Every counted edge into an output node comes from a node output before it. */
  ghost predicate EdgesRespected(ids: seq<NodeId>, edges: seq<RunEdge>, order: seq<NodeId>)
  {
    forall k, i :: 0 <= k < |edges| && 0 <= i < |order| && Counted(ids, edges[k]) && edges[k].dst == order[i]
      ==> edges[k].src in order[..i]
  }

  /** Extending the edge list by one edge updates one adjacency list, as `adjacency_list[src].append(edge)`. */
  lemma AdjacencyStep(ids: seq<NodeId>, edges: seq<RunEdge>, e: RunEdge)
    ensures var adj := Adjacency(ids, edges);
      Adjacency(ids, edges + [e]) == if Counted(ids, e) then adj[e.src := adj[e.src] + [e]] else adj
  {
    var es := edges + [e];
    assert es[..|edges|] == edges;
    forall u | u in ids
      ensures OutEdges(ids, es, u) == OutEdges(ids, edges, u) + (if Counted(ids, e) && e.src == u then [e] else [])
    {
    }
    forall u | u in ids && !(Counted(ids, e) && e.src == u) ensures OutEdges(ids, es, u) == OutEdges(ids, edges, u) {
      assert OutEdges(ids, edges, u) + [] == OutEdges(ids, edges, u);
    }
    var adj := Adjacency(ids, edges);
    if Counted(ids, e) {
      var m := adj[e.src := adj[e.src] + [e]];
      assert m.Keys == Adjacency(ids, es).Keys;
      forall u | u in m ensures m[u] == Adjacency(ids, es)[u] {
      }
    }
  }

  /** Extending the edge list by one edge raises one in-degree, as `in_degree[dst] += 1`. */
  lemma InDegreesStep(ids: seq<NodeId>, edges: seq<RunEdge>, e: RunEdge)
    ensures var deg := InDegrees(ids, edges);
      InDegrees(ids, edges + [e]) == if Counted(ids, e) then deg[e.dst := deg[e.dst] + 1] else deg
  {
    assert (edges + [e])[..|edges|] == edges;
  }

  /** Both index dictionaries after one more edge of the list. */
  lemma IndexStep(ids: seq<NodeId>, edges: seq<RunEdge>, k: nat)
    requires k < |edges|
    ensures var e := edges[k];
      var adj := Adjacency(ids, edges[..k]);
      var deg := InDegrees(ids, edges[..k]);
      && (Counted(ids, e) <==> e.src in adj && e.dst in deg)
      && Adjacency(ids, edges[..k + 1]) == (if Counted(ids, e) then adj[e.src := adj[e.src] + [e]] else adj)
      && InDegrees(ids, edges[..k + 1]) == (if Counted(ids, e) then deg[e.dst := deg[e.dst] + 1] else deg)
  {
    assert edges[..k + 1] == edges[..k] + [edges[k]];
    AdjacencyStep(ids, edges[..k], edges[k]);
    InDegreesStep(ids, edges[..k], edges[k]);
  }

  /** One turn of the first loop of app/main.py:401-405: an edge between node ids is indexed, any other skipped. */
  method AddEdge(ghost ids: seq<NodeId>, edges: seq<RunEdge>, k: nat, inDeg: map<NodeId, int>, adj: map<NodeId, seq<RunEdge>>)
    returns (inDeg': map<NodeId, int>, adj': map<NodeId, seq<RunEdge>>)
    requires k < |edges|
    requires inDeg == InDegrees(ids, edges[..k]) && adj == Adjacency(ids, edges[..k])
    ensures inDeg' == InDegrees(ids, edges[..k + 1]) && adj' == Adjacency(ids, edges[..k + 1])
  {
    var e := edges[k];
    IndexStep(ids, edges, k);
    inDeg', adj' := inDeg, adj;
    if e.src in adj && e.dst in inDeg {
      adj' := adj[e.src := adj[e.src] + [e]];
      inDeg' := inDeg[e.dst := inDeg[e.dst] + 1];
    }
  }

  /** The first loop of app/main.py:399-406: in-degrees and adjacency lists of the counted edges. */
  method BuildIndex(ids: seq<NodeId>, edges: seq<RunEdge>) returns (inDeg: map<NodeId, int>, adj: map<NodeId, seq<RunEdge>>)
    ensures inDeg == InDegrees(ids, edges)
    ensures adj == Adjacency(ids, edges)
  {
    inDeg := map v | v in ids :: 0;
    adj := map v | v in ids :: [];
    for k := 0 to |edges|
      invariant inDeg == InDegrees(ids, edges[..k])
      invariant adj == Adjacency(ids, edges[..k])
    {
      inDeg, adj := AddEdge(ids, edges, k, inDeg, adj);
    }
    assert edges[..|edges|] == edges;
  }

  /** Output the head of the queue: its in-degree is zero, so all its predecessors are already output. */
  lemma PopKeepsInvariants(ids: seq<NodeId>, edges: seq<RunEdge>, inDeg: map<NodeId, int>, order: seq<NodeId>, queue: seq<NodeId>)
    requires Distinct(ids) && queue != []
    requires DegreesTrack(ids, edges, inDeg, Elems(order), [])
    requires QueueTracks(ids, inDeg, order + queue)
    requires EdgesRespected(ids, edges, order)
    ensures var order' := order + [queue[0]];
      && order' + queue[1..] == order + queue
      && DegreesTrack(ids, edges, inDeg, Elems(order'), OutEdges(ids, edges, queue[0]))
      && EdgesRespected(ids, edges, order')
      && |order'| <= |ids|
  {
    var node := queue[0];
    var order' := order + [node];
    assert order' + queue[1..] == order + queue;
    forall i | 0 <= i < |order| ensures order[i] != node {
      assert (order + queue)[i] == order[i] && (order + queue)[|order|] == node;
    }
    assert order' == (order + queue)[..|order| + 1];
    forall i, j | 0 <= i < j < |order'| ensures order'[i] != order'[j] {
      assert order'[i] == (order + queue)[i] && order'[j] == (order + queue)[j];
    }
    assert Elems(order') == Elems(order) + {node};
    assert forall x :: x in order' ==> x in order + queue;
    DistinctWithin(order', Elems(ids));
    DistinctCard(ids);
    forall v | v in ids
      ensures InCount(ids, edges, v, Elems(order)) == InCount(ids, edges, v, Elems(order')) + CountTo(OutEdges(ids, edges, node), v)
    {
      InCountRemove(ids, edges, v, Elems(order), node);
    }
    InCountZero(ids, edges, node, Elems(order));
    forall k, i | 0 <= k < |edges| && 0 <= i < |order'| && Counted(ids, edges[k]) && edges[k].dst == order'[i]
      ensures edges[k].src in order'[..i]
    {
      if i < |order| {
        assert order'[..i] == order[..i];
      } else {
        assert order'[..i] == order;
      }
    }
  }

  /**
   * The releases of app/main.py:414-418 for the edges `out`, taken in list
   * order: each destination's in-degree drops by one, and a destination whose
   * in-degree reaches zero is appended to the queue. An edge whose
   * destination has no in-degree entry is passed over; the sort never holds
   * one, since it only keeps edges between node ids.
   */
  function Release(out: seq<RunEdge>, inDeg: map<NodeId, int>, queue: seq<NodeId>): (r: (map<NodeId, int>, seq<NodeId>))
    ensures r.0.Keys == inDeg.Keys
  {
    if out == [] then (inDeg, queue)
    else
      var d := out[0].dst;
      var deg := if d in inDeg then inDeg[d := inDeg[d] - 1] else inDeg;
      Release(out[1..], deg, if d in deg && deg[d] == 0 then queue + [d] else queue)
  }

  /** Releasing lowers each in-degree by the number of released edges into that node. */
  lemma {:induction false} ReleaseDecrements(out: seq<RunEdge>, inDeg: map<NodeId, int>, queue: seq<NodeId>)
    ensures forall v :: v in inDeg ==> Release(out, inDeg, queue).0[v] == inDeg[v] - CountTo(out, v)
    decreases out
  {
    if out != [] {
      var d := out[0].dst;
      var deg := if d in inDeg then inDeg[d := inDeg[d] - 1] else inDeg;
      ReleaseDecrements(out[1..], deg, if d in deg && deg[d] == 0 then queue + [d] else queue);
      CountToUnfold(out);
    }
  }

  /** Releasing keeps the queue as a prefix and only appends nodes that one of the edges points at. */
  lemma {:induction false} ReleaseAppends(out: seq<RunEdge>, inDeg: map<NodeId, int>, queue: seq<NodeId>)
    ensures queue <= Release(out, inDeg, queue).1
    ensures forall v :: v in Release(out, inDeg, queue).1[|queue|..] ==> v in inDeg && CountTo(out, v) > 0
    decreases out
  {
    if out != [] {
      var d := out[0].dst;
      var deg := if d in inDeg then inDeg[d := inDeg[d] - 1] else inDeg;
      var q := if d in deg && deg[d] == 0 then queue + [d] else queue;
      ReleaseAppends(out[1..], deg, q);
      CountToUnfold(out);
      var r := Release(out[1..], deg, q).1;
      PrefixTrans(queue, q, r);
      forall v | v in r[|queue|..] ensures v in inDeg && CountTo(out, v) > 0 {
        var k :| |queue| <= k < |r| && r[k] == v;
        if k >= |q| {
          assert v in r[|q|..];
        } else {
          assert q[k] == v && k == |queue|;
        }
      }
    } else {
      assert queue[|queue|..] == [];
    }
  }

  /** The edge count of a non-empty list is that of its head plus that of its tail. */
  lemma CountToUnfold(out: seq<RunEdge>)
    requires out != []
    ensures forall v :: CountTo(out, v) == (if out[0].dst == v then 1 else 0) + CountTo(out[1..], v)
  {
    assert out == [out[0]] + out[1..];
    assert [out[0]][..0] == [];
    forall v ensures CountTo(out, v) == (if out[0].dst == v then 1 else 0) + CountTo(out[1..], v) {
      CountToConcat([out[0]], out[1..], v);
    }
  }

  /**
   * The order the FIFO loop of app/main.py:411-418 outputs from a given
   * queue and in-degrees, within `fuel` turns: pop the head, output it, and
   * release its successors, in adjacency order, onto the back of the queue.
   * A head without an adjacency list has no successors.
   */
  function KahnOrder(adj: map<NodeId, seq<RunEdge>>, inDeg: map<NodeId, int>, queue: seq<NodeId>, fuel: nat): seq<NodeId>
    decreases fuel
  {
    if fuel == 0 || queue == [] then []
    else
      var out := if queue[0] in adj then adj[queue[0]] else [];
      var next := Release(out, inDeg, queue[1..]);
      [queue[0]] + KahnOrder(adj, next.0, next.1, fuel - 1)
  }

  /** One decrement keeps the queue tracking the nodes of in-degree zero, once a node that reaches zero is enqueued. */
  lemma EnqueueKeepsTracks(ids: seq<NodeId>, inDeg: map<NodeId, int>, seen: seq<NodeId>, d: NodeId)
    requires forall v :: v in ids ==> v in inDeg
    requires d in ids && inDeg[d] >= 1
    requires QueueTracks(ids, inDeg, seen)
    ensures var deg := inDeg[d := inDeg[d] - 1];
      QueueTracks(ids, deg, if deg[d] == 0 then seen + [d] else seen)
  {
    var deg := inDeg[d := inDeg[d] - 1];
    if deg[d] == 0 {
      var s := seen + [d];
      forall i, j | 0 <= i < j < |s| ensures s[i] != s[j] {
        if j == |seen| {
          assert s[i] in seen;
        } else {
          assert s[i] == seen[i] && s[j] == seen[j];
        }
      }
    }
  }

  /** The first release keeps the queue tracking the nodes of in-degree zero, and leaves enough in-degree for the rest. */
  lemma ReleaseQueueStep(ids: seq<NodeId>, out: seq<RunEdge>, inDeg: map<NodeId, int>, order: seq<NodeId>, queue: seq<NodeId>)
    requires out != [] && out[0].dst in ids
    requires forall v :: v in ids ==> v in inDeg && inDeg[v] >= CountTo(out, v)
    requires QueueTracks(ids, inDeg, order + queue)
    ensures var d := out[0].dst;
      var deg := inDeg[d := inDeg[d] - 1];
      && (forall v :: v in ids ==> v in deg && deg[v] >= CountTo(out[1..], v))
      && QueueTracks(ids, deg, order + (if deg[d] == 0 then queue + [d] else queue))
  {
    var d := out[0].dst;
    CountToUnfold(out);
    EnqueueKeepsTracks(ids, inDeg, order + queue, d);
    Associative(order, queue, [d]);
  }

  /** Releasing keeps the queue tracking the nodes of in-degree zero, as long as no in-degree drops below zero. */
  lemma {:induction false} ReleaseKeepsQueue(ids: seq<NodeId>, out: seq<RunEdge>, inDeg: map<NodeId, int>,
                                             order: seq<NodeId>, queue: seq<NodeId>)
    requires forall e :: e in out ==> e.dst in ids
    requires forall v :: v in ids ==> v in inDeg && inDeg[v] >= CountTo(out, v)
    requires QueueTracks(ids, inDeg, order + queue)
    ensures QueueTracks(ids, Release(out, inDeg, queue).0, order + Release(out, inDeg, queue).1)
    decreases out
  {
    if out != [] {
      var d := out[0].dst;
      var deg := inDeg[d := inDeg[d] - 1];
      ReleaseQueueStep(ids, out, inDeg, order, queue);
      ReleaseKeepsQueue(ids, out[1..], deg, order, if deg[d] == 0 then queue + [d] else queue);
    }
  }

  /** Releasing the successors of an output node keeps the in-degrees and the queue tracking the nodes of in-degree zero. */
  lemma ReleaseKeepsTrack(ids: seq<NodeId>, edges: seq<RunEdge>, out: seq<RunEdge>, inDeg: map<NodeId, int>,
                          order: seq<NodeId>, queue: seq<NodeId>)
    requires forall e :: e in out ==> e.dst in ids
    requires DegreesTrack(ids, edges, inDeg, Elems(order), out)
    requires QueueTracks(ids, inDeg, order + queue)
    ensures DegreesTrack(ids, edges, Release(out, inDeg, queue).0, Elems(order), [])
    ensures QueueTracks(ids, Release(out, inDeg, queue).0, order + Release(out, inDeg, queue).1)
  {
    ReleaseDecrements(out, inDeg, queue);
    ReleaseKeepsQueue(ids, out, inDeg, order, queue);
  }

  /** The inner loop of app/main.py:414-418: decrement each successor and enqueue those that reach zero. */
  method ReleaseSuccessors(ghost ids: seq<NodeId>, ghost edges: seq<RunEdge>, out: seq<RunEdge>, inDeg: map<NodeId, int>,
                           ghost order: seq<NodeId>, queue: seq<NodeId>)
    returns (inDeg': map<NodeId, int>, queue': seq<NodeId>)
    requires forall e :: e in out ==> e.dst in ids
    requires DegreesTrack(ids, edges, inDeg, Elems(order), out)
    requires QueueTracks(ids, inDeg, order + queue)
    ensures DegreesTrack(ids, edges, inDeg', Elems(order), [])
    ensures QueueTracks(ids, inDeg', order + queue')
    ensures (inDeg', queue') == Release(out, inDeg, queue)
  {
    inDeg', queue' := inDeg, queue;
    for j := 0 to |out|
      invariant inDeg'.Keys == inDeg.Keys
      invariant Release(out[j..], inDeg', queue') == Release(out, inDeg, queue)
    {
      var d := out[j].dst;
      assert out[j..][0] == out[j] && out[j..][1..] == out[j + 1..];
      inDeg' := inDeg'[d := inDeg'[d] - 1];
      if inDeg'[d] == 0 {
        queue' := queue' + [d];
      }
    }
    assert out[|out|..] == [];
    ReleaseKeepsTrack(ids, edges, out, inDeg, order, queue);
  }

  /** One turn of the outer loop of app/main.py:411-418: output the head of the queue and release its successors. */
  method Dequeue(ids: seq<NodeId>, edges: seq<RunEdge>, adj: map<NodeId, seq<RunEdge>>, inDeg: map<NodeId, int>,
                 order: seq<NodeId>, queue: seq<NodeId>)
    returns (inDeg': map<NodeId, int>, order': seq<NodeId>, queue': seq<NodeId>)
    requires Distinct(ids) && queue != [] && adj == Adjacency(ids, edges)
    requires DegreesTrack(ids, edges, inDeg, Elems(order), [])
    requires QueueTracks(ids, inDeg, order + queue)
    requires EdgesRespected(ids, edges, order)
    ensures DegreesTrack(ids, edges, inDeg', Elems(order'), [])
    ensures QueueTracks(ids, inDeg', order' + queue')
    ensures EdgesRespected(ids, edges, order')
    ensures order + queue <= order' + queue'
    ensures |order'| == |order| + 1 && |order'| <= |ids|
    ensures order' == order + [queue[0]]
    ensures (inDeg', queue') == Release(adj[queue[0]], inDeg, queue[1..])
  {
    var node := queue[0];
    PopKeepsInvariants(ids, edges, inDeg, order, queue);
    order', queue' := order + [node], queue[1..];
    OutEdgesShape(ids, edges, node);
    ghost var seen := order' + queue';
    ReleaseAppends(adj[node], inDeg, queue');
    inDeg', queue' := ReleaseSuccessors(ids, edges, adj[node], inDeg, order', queue');
    assert seen <= order' + queue';
  }

  /** One turn of the FIFO loop: the output so far followed by the rest of the run is still the whole run. */
  lemma FifoAdvance(adj: map<NodeId, seq<RunEdge>>, inDeg: map<NodeId, int>, order: seq<NodeId>, queue: seq<NodeId>, fuel: nat,
                    inDeg': map<NodeId, int>, order': seq<NodeId>, queue': seq<NodeId>, spec: seq<NodeId>)
    requires queue != [] && queue[0] in adj && fuel > 0
    requires order' == order + [queue[0]]
    requires (inDeg', queue') == Release(adj[queue[0]], inDeg, queue[1..])
    requires order + KahnOrder(adj, inDeg, queue, fuel) == spec
    ensures order' + KahnOrder(adj, inDeg', queue', fuel - 1) == spec
  {
    Associative(order, [queue[0]], KahnOrder(adj, inDeg', queue', fuel - 1));
  }

  /** When the queue is empty, the order lists every node exactly when the counted edges are acyclic. */
  lemma KahnVerdict(ids: seq<NodeId>, edges: seq<RunEdge>, inDeg: map<NodeId, int>, order: seq<NodeId>)
    requires Distinct(ids)
    requires DegreesTrack(ids, edges, inDeg, Elems(order), [])
    requires QueueTracks(ids, inDeg, order)
    requires EdgesRespected(ids, edges, order)
    ensures |order| <= |ids|
    ensures |order| == |ids| <==> Acyclic(CountedPairs(ids, edges))
  {
    DistinctWithin(order, Elems(ids));
    DistinctCard(ids);
    if |order| == |ids| {
      CompleteOrderIsAcyclic(ids, edges, order);
    } else {
      ShortOrderIsCyclic(ids, edges, order);
    }
  }

  /** One turn of the while loop of app/main.py:411-418, with what the loop keeps. */
  method FifoTurn(ids: seq<NodeId>, edges: seq<RunEdge>, adj: map<NodeId, seq<RunEdge>>, inDeg: map<NodeId, int>,
                  order: seq<NodeId>, queue: seq<NodeId>, ghost start: seq<NodeId>, ghost spec: seq<NodeId>)
    returns (inDeg': map<NodeId, int>, order': seq<NodeId>, queue': seq<NodeId>)
    requires Distinct(ids) && queue != [] && adj == Adjacency(ids, edges)
    requires DegreesTrack(ids, edges, inDeg, Elems(order), [])
    requires QueueTracks(ids, inDeg, order + queue)
    requires EdgesRespected(ids, edges, order)
    requires start <= order + queue && |order| <= |ids|
    requires order + KahnOrder(adj, inDeg, queue, |ids| - |order|) == spec
    ensures DegreesTrack(ids, edges, inDeg', Elems(order'), [])
    ensures QueueTracks(ids, inDeg', order' + queue')
    ensures EdgesRespected(ids, edges, order')
    ensures start <= order' + queue'
    ensures |order'| == |order| + 1 && |order'| <= |ids|
    ensures order' + KahnOrder(adj, inDeg', queue', |ids| - |order'|) == spec
  {
    inDeg', order', queue' := Dequeue(ids, edges, adj, inDeg, order, queue);
    PrefixTrans(start, order + queue, order' + queue');
    FifoAdvance(adj, inDeg, order, queue, |ids| - |order|, inDeg', order', queue', spec);
  }

  /**
   * The while loop of app/main.py:411-418, from an empty output: it outputs
   * exactly the FIFO run from the given queue, starting with that queue.
   */
  method DrainQueue(ids: seq<NodeId>, edges: seq<RunEdge>, adj: map<NodeId, seq<RunEdge>>, inDeg: map<NodeId, int>,
                    queue: seq<NodeId>)
    returns (inDeg': map<NodeId, int>, order: seq<NodeId>)
    requires Distinct(ids) && adj == Adjacency(ids, edges)
    requires DegreesTrack(ids, edges, inDeg, {}, [])
    requires QueueTracks(ids, inDeg, queue)
    ensures DegreesTrack(ids, edges, inDeg', Elems(order), [])
    ensures QueueTracks(ids, inDeg', order)
    ensures EdgesRespected(ids, edges, order)
    ensures queue <= order
    ensures order == KahnOrder(adj, inDeg, queue, |ids|)
  {
    var q := queue;
    inDeg', order := inDeg, [];
    assert order + q == queue;
    assert Elems(order) == {};
    while q != []
      invariant DegreesTrack(ids, edges, inDeg', Elems(order), [])
      invariant QueueTracks(ids, inDeg', order + q)
      invariant EdgesRespected(ids, edges, order)
      invariant queue <= order + q
      invariant |order| <= |ids|
      invariant order + KahnOrder(adj, inDeg', q, |ids| - |order|) == KahnOrder(adj, inDeg, queue, |ids|)
      decreases |ids| - |order|
    {
      inDeg', order, q := FifoTurn(ids, edges, adj, inDeg', order, q, queue, KahnOrder(adj, inDeg, queue, |ids|));
    }
    assert order + q == order;
  }

  /**
   * Kahn's algorithm as app/main.py:399-420 runs it. The result lists
   * distinct node ids; every counted edge into a listed node has its source
   * listed earlier; the initial zero-in-degree queue comes out first, in node
   * order (the queue is first in, first out); and the result lists every
   * node exactly when the counted edges form no cycle (otherwise it is
   * shorter, and no error is raised).
   */
  method TopologicalSort(ids: seq<NodeId>, edges: seq<RunEdge>) returns (order: seq<NodeId>)
    requires Distinct(ids)
    ensures Distinct(order) && forall x :: x in order ==> x in ids
    ensures forall k, i :: 0 <= k < |edges| && 0 <= i < |order| && Counted(ids, edges[k]) && edges[k].dst == order[i]
              ==> edges[k].src in order[..i]
    ensures var roots := ZeroInDegree(ids, InDegrees(ids, edges)); |roots| <= |order| && order[..|roots|] == roots
    ensures |order| <= |ids|
    ensures |order| == |ids| <==> Acyclic(CountedPairs(ids, edges))
    ensures order == KahnOrder(Adjacency(ids, edges), InDegrees(ids, edges), ZeroInDegree(ids, InDegrees(ids, edges)), |ids|)
  {
    var inDeg, adj := BuildIndex(ids, edges);
    var roots := ZeroInDegree(ids, inDeg);
    assert Elems<NodeId>([]) == {};
    inDeg, order := DrainQueue(ids, edges, adj, inDeg, roots);
    KahnVerdict(ids, edges, inDeg, order);
  }
}
