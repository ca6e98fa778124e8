/**
 * The weak-connectivity test of `validate_graph_structure`
 * (app/schemas.py:131-132), which counts `nx.weakly_connected_components`.
 * Here it is a breadth-first search over the edges taken in both directions.
 */
module Connectivity {
  import opened Seqs
  import opened Digraph

  /** Every pair that touches `x`, in either direction, leads to a node of `visited`. */
  ghost predicate Closed(pairs: seq<(NodeId, NodeId)>, visited: set<NodeId>, x: NodeId)
  {
    forall m :: 0 <= m < |pairs| ==>
      (pairs[m].0 == x ==> pairs[m].1 in visited) && (pairs[m].1 == x ==> pairs[m].0 in visited)
  }

  lemma RemoveOneCard(a: set<NodeId>, v: set<NodeId>, b: NodeId)
    requires b in a && b !in v
    ensures |a - (v + {b})| == |a - v| - 1
  {
    assert a - (v + {b}) == (a - v) - {b};
  }

  /** If the search stopped with every visited node closed, a node it missed is not linked to the start. */
  lemma MissedIsUnlinked(ids: seq<NodeId>, pairs: seq<(NodeId, NodeId)>, visited: set<NodeId>, start: NodeId, w: NodeId)
    requires start in visited && w !in visited
    requires forall x :: x in visited ==> Closed(pairs, visited, x)
    ensures !Linked(Elems(pairs), start, w)
  {
    var r := Elems(pairs);
    if Linked(r, start, w) {
      var p :| IsPath(Sym(r), p) && p[0] == start && p[|p| - 1] == w;
      var i := ExitStep(p, visited);
      // The step from p[i] to p[i + 1] uses a pair that touches the closed node p[i].
      assert false;
    }
  }

  /** Closing a node stays true as the visited set grows. */
  lemma ClosedGrows(pairs: seq<(NodeId, NodeId)>, visited: set<NodeId>, visited': set<NodeId>, x: NodeId)
    requires Closed(pairs, visited, x) && visited <= visited'
    ensures Closed(pairs, visited', x)
  {
  }

  /** What the search keeps true: it stays in the graph, reaches only nodes joined to the start, and queues each node once. */
  ghost predicate Searching(ids: seq<NodeId>, pairs: seq<(NodeId, NodeId)>, start: NodeId, visited: set<NodeId>, frontier: seq<NodeId>)
  {
    && visited <= Elems(ids) && start in visited
    && (forall v :: v in visited ==> Linked(Elems(pairs), start, v))
    && Distinct(frontier) && (forall y :: y in frontier ==> y in visited)
  }

  /** Mark the neighbour `y` of `x` visited and queue it, unless it was visited already. */
  method Visit(ghost ids: seq<NodeId>, ghost pairs: seq<(NodeId, NodeId)>, ghost start: NodeId, ghost x: NodeId, y: NodeId,
               visited: set<NodeId>, frontier: seq<NodeId>)
    returns (visited': set<NodeId>, frontier': seq<NodeId>)
    requires Searching(ids, pairs, start, visited, frontier) && x in visited && x !in frontier
    requires (x, y) in Sym(Elems(pairs)) && y in ids
    ensures Searching(ids, pairs, start, visited', frontier') && x !in frontier'
    ensures visited' == visited + {y}
    ensures frontier' == if y in visited then frontier else frontier + [y]
    ensures 2 * |Elems(ids) - visited'| + |frontier'| <= 2 * |Elems(ids) - visited| + |frontier|
  {
    if y in visited {
      return visited, frontier;
    }
    LinkedStep(Elems(pairs), start, x, y);
    RemoveOneCard(Elems(ids), visited, y);
    visited', frontier' := visited + {y}, frontier + [y];
  }

  /** Follow the pair `pairs[k]` from `x`, in whichever direction it touches `x`. */
  method VisitPair(ghost ids: seq<NodeId>, pairs: seq<(NodeId, NodeId)>, ghost start: NodeId, x: NodeId, k: nat,
                   visited: set<NodeId>, frontier: seq<NodeId>)
    returns (visited': set<NodeId>, frontier': seq<NodeId>)
    requires k < |pairs| && pairs[k].0 in ids && pairs[k].1 in ids
    requires Searching(ids, pairs, start, visited, frontier) && x in visited && x !in frontier
    ensures Searching(ids, pairs, start, visited', frontier') && x !in frontier'
    ensures (pairs[k].0 == x ==> pairs[k].1 in visited') && (pairs[k].1 == x ==> pairs[k].0 in visited')
    ensures visited <= visited' && Elems(frontier) <= Elems(frontier')
    ensures frontier <= frontier'
    ensures forall y :: y in visited' && y !in visited ==> y in frontier'
    ensures 2 * |Elems(ids) - visited'| + |frontier'| <= 2 * |Elems(ids) - visited| + |frontier|
  {
    ghost var r := Elems(pairs);
    var (a, b) := pairs[k];
    assert (a, b) in r;
    visited', frontier' := visited, frontier;
    if a == x {
      assert (x, b) in Sym(r);
      visited', frontier' := Visit(ids, pairs, start, x, b, visited', frontier');
    }
    if b == x {
      assert (x, a) in Sym(r);
      visited', frontier' := Visit(ids, pairs, start, x, a, visited', frontier');
    }
  }

  /** Visit every unvisited neighbour of `x` and queue it. */
  method Expand(ghost ids: seq<NodeId>, pairs: seq<(NodeId, NodeId)>, ghost start: NodeId, x: NodeId,
                visited: set<NodeId>, frontier: seq<NodeId>)
    returns (visited': set<NodeId>, frontier': seq<NodeId>)
    requires forall m :: 0 <= m < |pairs| ==> pairs[m].0 in ids && pairs[m].1 in ids
    requires Searching(ids, pairs, start, visited, frontier) && x in visited && x !in frontier
    ensures Searching(ids, pairs, start, visited', frontier') && x !in frontier'
    ensures Closed(pairs, visited', x)
    ensures visited <= visited' && Elems(frontier) <= Elems(frontier')
    ensures forall y :: y in visited' && y !in visited ==> y in frontier'
    ensures 2 * |Elems(ids) - visited'| + |frontier'| <= 2 * |Elems(ids) - visited| + |frontier|
  {
    visited', frontier' := visited, frontier;
    for k := 0 to |pairs|
      invariant Searching(ids, pairs, start, visited', frontier') && x !in frontier'
      invariant forall m :: 0 <= m < k ==> (pairs[m].0 == x ==> pairs[m].1 in visited') && (pairs[m].1 == x ==> pairs[m].0 in visited')
      invariant visited <= visited' && frontier <= frontier'
      invariant forall y :: y in visited' && y !in visited ==> y in frontier'
      invariant 2 * |Elems(ids) - visited'| + |frontier'| <= 2 * |Elems(ids) - visited| + |frontier|
    {
      visited', frontier' := VisitPair(ids, pairs, start, x, k, visited', frontier');
    }
  }

  /**
   * The graph over `ids` with the edges `pairs` has at most one weakly
   * connected component: `len(list(nx.weakly_connected_components(G))) <= 1`.
   * An empty graph has none and passes.
   */
  method IsWeaklyConnected(ids: seq<NodeId>, pairs: seq<(NodeId, NodeId)>) returns (connected: bool)
    requires forall m :: 0 <= m < |pairs| ==> pairs[m].0 in ids && pairs[m].1 in ids
    ensures connected <==> WeaklyConnected(Elems(ids), Elems(pairs))
  {
    ghost var r := Elems(pairs);
    if ids == [] {
      return true;
    }
    var start := ids[0];
    var visited := {start};
    var frontier := [start];
    LinkedRefl(r, start);
    while frontier != []
      invariant Searching(ids, pairs, start, visited, frontier)
      invariant forall y :: y in visited && y !in frontier ==> Closed(pairs, visited, y)
      decreases 2 * |Elems(ids) - visited| + |frontier|
    {
      var x := frontier[0];
      var rest := frontier[1..];
      assert frontier == [x] + rest && x !in rest;
      var visited', frontier' := Expand(ids, pairs, start, x, visited, rest);
      forall y | y in visited' && y !in frontier' ensures Closed(pairs, visited', y) {
        if y != x {
          assert y in visited && y !in Elems(rest);
          assert y !in frontier;
          ClosedGrows(pairs, visited, visited', y);
        }
      }
      visited, frontier := visited', frontier';
    }
    connected := visited == Elems(ids);
    if connected {
      forall u, v | u in Elems(ids) && v in Elems(ids) ensures Linked(r, u, v) {
        LinkedSymmetric(r, start, u);
        LinkedTransitive(r, u, start, v);
      }
    } else {
      var w :| w in Elems(ids) && w !in visited;
      MissedIsUnlinked(ids, pairs, visited, start, w);
    }
  }
}
