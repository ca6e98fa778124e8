/**
 * Directed graphs as sets of (source, destination) pairs: paths, cycles,
 * acyclicity and weak connectivity. These predicates stand in for the
 * networkx calls `is_directed_acyclic_graph` and `weakly_connected_components`.
 */
module Digraph {
  import opened Seqs

  type NodeId = string
  type Rel = set<(NodeId, NodeId)>

  /** `p` is a walk of one or more nodes along the pairs of `r`. */
  ghost predicate IsPath(r: Rel, p: seq<NodeId>)
  {
    |p| >= 1 && forall i :: 0 <= i < |p| - 1 ==> (p[i], p[i + 1]) in r
  }

  /** A closed walk with at least one step; a self-loop `(a, a)` gives the cycle `[a, a]`. */
  ghost predicate IsCycle(r: Rel, p: seq<NodeId>)
  {
    |p| >= 2 && IsPath(r, p) && p[0] == p[|p| - 1]
  }

  ghost predicate Acyclic(r: Rel)
  {
    forall p :: !IsCycle(r, p)
  }

  /** The pairs of `r` together with their reversals: the undirected view of `r`. */
  function Sym(r: Rel): Rel
  {
    r + set e | e in r :: (e.1, e.0)
  }

  /** `u` and `v` are joined by a walk that may use pairs in either direction. */
  ghost predicate Linked(r: Rel, u: NodeId, v: NodeId)
  {
    exists p :: IsPath(Sym(r), p) && p[0] == u && p[|p| - 1] == v
  }

  /** At most one weakly connected component: every two nodes are joined. */
  ghost predicate WeaklyConnected(nodes: set<NodeId>, r: Rel)
  {
    forall u, v :: u in nodes && v in nodes ==> Linked(r, u, v)
  }

  /** Removing pairs cannot create a cycle. */
  lemma AcyclicSubset(r: Rel, r': Rel)
    requires Acyclic(r) && r' <= r
    ensures Acyclic(r')
  {
    forall p ensures !IsCycle(r', p) {
      if IsCycle(r', p) {
        assert IsCycle(r, p);
      }
    }
  }

  /** Along a walk whose pairs all go forward in `order`, positions strictly increase. */
  lemma {:induction false} PathClimbs(r: Rel, order: seq<NodeId>, p: seq<NodeId>)
    requires forall e :: e in r ==> e.0 in order && e.1 in order && IndexOf(order, e.0) < IndexOf(order, e.1)
    requires IsPath(r, p) && |p| >= 2
    ensures p[0] in order && p[|p| - 1] in order && IndexOf(order, p[0]) < IndexOf(order, p[|p| - 1])
  {
    assert (p[0], p[1]) in r;
    if |p| > 2 {
      PathClimbs(r, order, p[1..]);
    }
  }

  /** A relation that agrees with some ordering of its nodes has no cycle. */
  lemma OrderedIsAcyclic(r: Rel, order: seq<NodeId>)
    requires forall e :: e in r ==> e.0 in order && e.1 in order && IndexOf(order, e.0) < IndexOf(order, e.1)
    ensures Acyclic(r)
  {
    forall p ensures !IsCycle(r, p) {
      if IsCycle(r, p) {
        PathClimbs(r, order, p);
      }
    }
  }

  /** A walk longer than the set of nodes it stays in passes some node twice, so it closes a cycle. */
  lemma LongPathHasCycle(r: Rel, p: seq<NodeId>, s: set<NodeId>)
    requires IsPath(r, p) && Within(p, s)
    requires |p| > |s|
    ensures !Acyclic(r)
  {
    Pigeonhole(p, s);
    var i, j :| 0 <= i < j < |p| && p[i] == p[j];
    var c := p[i..j + 1];
    forall k | 0 <= k < |c| - 1 ensures (c[k], c[k + 1]) in r {
      assert c[k] == p[i + k] && c[k + 1] == p[i + k + 1];
    }
    assert IsCycle(r, c);
  }

  /** Every node of `p` lies in `s`. */
  ghost predicate Within(p: seq<NodeId>, s: set<NodeId>)
  {
    forall i :: 0 <= i < |p| ==> p[i] in s
  }

  ghost predicate HasPredecessorIn(r: Rel, s: set<NodeId>, v: NodeId)
  {
    exists u :: u in s && (u, v) in r
  }

  ghost predicate HasSuccessorIn(r: Rel, s: set<NodeId>, u: NodeId)
  {
    exists v :: v in s && (u, v) in r
  }

  /** A walk of any length within `s` exists when every node of `s` has a predecessor in `s`. */
  lemma {:induction false} BackwardPath(r: Rel, s: set<NodeId>, n: nat) returns (p: seq<NodeId>)
    requires s != {}
    requires forall v :: v in s ==> HasPredecessorIn(r, s, v)
    ensures IsPath(r, p) && |p| == n + 1 && Within(p, s)
  {
    if n == 0 {
      var v :| v in s;
      p := [v];
    } else {
      var q := BackwardPath(r, s, n - 1);
      assert HasPredecessorIn(r, s, q[0]);
      var u :| u in s && (u, q[0]) in r;
      p := [u] + q;
      assert forall i :: 1 <= i < |p| ==> p[i] == q[i - 1];
    }
  }

  /** A walk of any length within `s` exists when every node of `s` has a successor in `s`. */
  lemma {:induction false} ForwardPath(r: Rel, s: set<NodeId>, n: nat) returns (p: seq<NodeId>)
    requires s != {}
    requires forall u :: u in s ==> HasSuccessorIn(r, s, u)
    ensures IsPath(r, p) && |p| == n + 1 && Within(p, s)
  {
    if n == 0 {
      var v :| v in s;
      p := [v];
    } else {
      var q := ForwardPath(r, s, n - 1);
      assert HasSuccessorIn(r, s, q[|q| - 1]);
      var v :| v in s && (q[|q| - 1], v) in r;
      p := q + [v];
    }
  }

  /** If every node of a non-empty set has a predecessor inside it, the relation has a cycle. */
  lemma PredecessorsCloseCycle(r: Rel, s: set<NodeId>)
    requires s != {}
    requires forall v :: v in s ==> HasPredecessorIn(r, s, v)
    ensures !Acyclic(r)
  {
    var p := BackwardPath(r, s, |s|);
    LongPathHasCycle(r, p, s);
  }

  /** If every node of a non-empty set has a successor inside it, the relation has a cycle. */
  lemma SuccessorsCloseCycle(r: Rel, s: set<NodeId>)
    requires s != {}
    requires forall u :: u in s ==> HasSuccessorIn(r, s, u)
    ensures !Acyclic(r)
  {
    var p := ForwardPath(r, s, |s|);
    LongPathHasCycle(r, p, s);
  }

  /** Undirected walks can be reversed. */
  lemma LinkedSymmetric(r: Rel, u: NodeId, v: NodeId)
    requires Linked(r, u, v)
    ensures Linked(r, v, u)
  {
    var p :| IsPath(Sym(r), p) && p[0] == u && p[|p| - 1] == v;
    var q := seq(|p|, i requires 0 <= i < |p| => p[|p| - 1 - i]);
    forall i | 0 <= i < |q| - 1 ensures (q[i], q[i + 1]) in Sym(r) {
      var k := |p| - 2 - i;
      assert (p[k], p[k + 1]) in Sym(r);
      assert (p[k + 1], p[k]) in Sym(r);
    }
    assert IsPath(Sym(r), q);
  }

  /** Undirected walks can be chained. */
  lemma LinkedTransitive(r: Rel, u: NodeId, v: NodeId, w: NodeId)
    requires Linked(r, u, v) && Linked(r, v, w)
    ensures Linked(r, u, w)
  {
    var p :| IsPath(Sym(r), p) && p[0] == u && p[|p| - 1] == v;
    var q :| IsPath(Sym(r), q) && q[0] == v && q[|q| - 1] == w;
    var c := p + q[1..];
    forall i | 0 <= i < |c| - 1 ensures (c[i], c[i + 1]) in Sym(r) {
      if i < |p| - 1 {
        assert c[i] == p[i] && c[i + 1] == p[i + 1];
      } else {
        assert c[i] == q[i - |p| + 1] && c[i + 1] == q[i - |p| + 2];
      }
    }
    assert IsPath(Sym(r), c);
  }

  /** A walk from `u` to `x` extends by one undirected step. */
  lemma LinkedStep(r: Rel, u: NodeId, x: NodeId, y: NodeId)
    requires Linked(r, u, x) && (x, y) in Sym(r)
    ensures Linked(r, u, y)
  {
    var p :| IsPath(Sym(r), p) && p[0] == u && p[|p| - 1] == x;
    var q := p + [y];
    assert IsPath(Sym(r), q);
  }

  /** A one-node walk: every node is linked to itself. */
  lemma LinkedRefl(r: Rel, u: NodeId)
    ensures Linked(r, u, u)
  {
    assert IsPath(Sym(r), [u]);
  }

  /** A walk that starts inside `s` and ends outside it takes a step that leaves `s`. */
  lemma {:induction false} ExitStep(p: seq<NodeId>, s: set<NodeId>) returns (i: nat)
    requires |p| >= 1 && p[0] in s && p[|p| - 1] !in s
    ensures i < |p| - 1 && p[i] in s && p[i + 1] !in s
  {
    if p[1] !in s {
      i := 0;
    } else {
      var j := ExitStep(p[1..], s);
      i := j + 1;
    }
  }
}
