/**
 * `create_graph` (app/crud.py:7-67): validate, insert the graph, its nodes and
 * its edges into the primary store one by one, mirror the graph, and on any
 * exception delete what was inserted and raise again.
 */
module Crud {
  import opened Seqs
  import opened Wrappers
  import opened Schemas

  /** The three primary collections, each keyed by `_id`. */
  datatype Primary = Primary(graphs: map<DocId, Graph>, nodes: map<DocId, Node>, edges: map<DocId, Edge>)

  /** `after` is `before` with `vals[i]` stored under the fresh, distinct keys `ids[i]`, and nothing else changed. */
  ghost predicate Extends<T>(before: map<DocId, T>, after: map<DocId, T>, ids: seq<DocId>, vals: seq<T>)
  {
    && |ids| == |vals| && Distinct(ids)
    && (forall i :: 0 <= i < |ids| ==> ids[i] !in before)
    && after.Keys == before.Keys + Elems(ids)
    && (forall id :: id in before ==> after[id] == before[id])
    && (forall i :: 0 <= i < |ids| ==> after[ids[i]] == vals[i])
  }

  /** Removing the added keys gives back the original collection. */
  lemma ExtendsUndone<T>(before: map<DocId, T>, after: map<DocId, T>, ids: seq<DocId>, vals: seq<T>)
    requires Extends(before, after, ids, vals)
    ensures after - Elems(ids) == before
  {
    var m := after - Elems(ids);
    assert m.Keys == before.Keys;
    forall id | id in m ensures m[id] == before[id] {
    }
  }

  /** The mirror's side: what a call to `create_graph_in_neo4j` wrote, completely or in part. */
  datatype MirrorWrite = Complete(graph: Graph) | Partial(graph: Graph)

  /** How the mirror call ends: it succeeds, or raises after writing part of the graph or before writing anything. */
  datatype MirrorOutcome = MirrorSucceeds | FailsAfterWriting | FailsBeforeWriting

  /** The environment: which primary inserts raise, and how the mirror call ends. */
  datatype Faults = Faults(graphInsertRaises: bool, nodeInsertRaises: set<nat>, edgeInsertRaises: set<nat>, mirror: MirrorOutcome)

  /** The error `create_graph` re-raises. */
  datatype CreateError = Invalid(reason: ValidationError) | InsertFailed | MirrorFailed

  /** The primary store. Node and edge documents carry no `_id`, so each insert gets a fresh ObjectId. */
  class MongoStore {
    var db: Primary
    /** ObjectIds below this bound may already be taken; the next one handed out is fresh. */
    var nextOid: nat

    ghost predicate Valid()
      reads this
    {
      forall id :: id in db.nodes || id in db.edges ==> id.ObjectId? && id.n < nextOid
    }

    /** `insert_one` on the graphs collection; the document's own `_id` is the key, and a taken key raises. */
    method InsertGraph(g: Graph, raises: bool) returns (inserted: Option<DocId>)
      requires Valid()
      modifies this
      ensures Valid() && nextOid == old(nextOid)
      ensures raises || g.id in old(db.graphs) ==> inserted == None && db == old(db)
      ensures !raises && g.id !in old(db.graphs) ==>
        inserted == Some(g.id) && db == old(db).(graphs := old(db.graphs)[g.id := g])
    {
      if raises || g.id in db.graphs {
        return None;
      }
      db := db.(graphs := db.graphs[g.id := g]);
      return Some(g.id);
    }

    /** `insert_one` on the nodes collection. */
    method InsertNode(n: Node, raises: bool) returns (inserted: Option<DocId>)
      requires Valid()
      modifies this
      ensures Valid()
      ensures raises ==> inserted == None && db == old(db) && nextOid == old(nextOid)
      ensures !raises ==> (inserted == Some(ObjectId(old(nextOid))) && ObjectId(old(nextOid)) !in old(db.nodes)
        && db == old(db).(nodes := old(db.nodes)[ObjectId(old(nextOid)) := n]) && nextOid == old(nextOid) + 1)
    {
      if raises {
        return None;
      }
      var id := ObjectId(nextOid);
      db := db.(nodes := db.nodes[id := n]);
      nextOid := nextOid + 1;
      return Some(id);
    }

    /** `insert_one` on the edges collection. */
    method InsertEdge(e: Edge, raises: bool) returns (inserted: Option<DocId>)
      requires Valid()
      modifies this
      ensures Valid()
      ensures raises ==> inserted == None && db == old(db) && nextOid == old(nextOid)
      ensures !raises ==> (inserted == Some(ObjectId(old(nextOid))) && ObjectId(old(nextOid)) !in old(db.edges)
        && db == old(db).(edges := old(db.edges)[ObjectId(old(nextOid)) := e]) && nextOid == old(nextOid) + 1)
    {
      if raises {
        return None;
      }
      var id := ObjectId(nextOid);
      db := db.(edges := db.edges[id := e]);
      nextOid := nextOid + 1;
      return Some(id);
    }

    /** `delete_one({"_id": id})` on each collection; deleting a missing key does nothing. */
    method DeleteGraph(id: DocId)
      requires Valid()
      modifies this
      ensures Valid() && nextOid == old(nextOid)
      ensures db == old(db).(graphs := old(db.graphs) - {id})
    {
      db := db.(graphs := db.graphs - {id});
    }

    method DeleteNode(id: DocId)
      requires Valid()
      modifies this
      ensures Valid() && nextOid == old(nextOid)
      ensures db == old(db).(nodes := old(db.nodes) - {id})
    {
      db := db.(nodes := db.nodes - {id});
    }

    method DeleteEdge(id: DocId)
      requires Valid()
      modifies this
      ensures Valid() && nextOid == old(nextOid)
      ensures db == old(db).(edges := old(db.edges) - {id})
    {
      db := db.(edges := db.edges - {id});
    }
  }

  /** The secondary store, as the list of writes it received. */
  class Mirror {
    var log: seq<MirrorWrite>

    /** `create_graph_in_neo4j`; returns whether it completed without raising. */
    method CreateGraphInMirror(g: Graph, outcome: MirrorOutcome) returns (ok: bool)
      modifies this
      ensures ok <==> outcome == MirrorSucceeds
      ensures log == old(log) + match outcome
        case MirrorSucceeds => [Complete(g)]
        case FailsAfterWriting => [Partial(g)]
        case FailsBeforeWriting => []
    {
      ok := outcome == MirrorSucceeds;
      match outcome
      case MirrorSucceeds =>
        log := log + [Complete(g)];
      case FailsAfterWriting =>
        log := log + [Partial(g)];
      case FailsBeforeWriting =>
    }
  }

  /** Step 2 of app/crud.py:41-43: insert the nodes in order, recording each returned id; stop at the first that raises. */
  method InsertNodes(mongo: MongoStore, nodes: seq<Node>, raising: set<nat>) returns (nodeIds: seq<DocId>, ok: bool)
    requires mongo.Valid()
    modifies mongo
    ensures mongo.Valid() && mongo.db.graphs == old(mongo.db.graphs) && mongo.db.edges == old(mongo.db.edges)
    ensures ok <==> forall i :: 0 <= i < |nodes| ==> i !in raising
    ensures |nodeIds| <= |nodes| && (ok ==> |nodeIds| == |nodes|)
    ensures forall j :: 0 <= j < |nodeIds| ==> j !in raising
    ensures !ok ==> |nodeIds| in raising
    ensures Extends(old(mongo.db.nodes), mongo.db.nodes, nodeIds, nodes[..|nodeIds|])
  {
    nodeIds := [];
    for i := 0 to |nodes|
      invariant mongo.Valid() && mongo.db.graphs == old(mongo.db.graphs) && mongo.db.edges == old(mongo.db.edges)
      invariant |nodeIds| == i && forall j :: 0 <= j < i ==> j !in raising
      invariant Extends(old(mongo.db.nodes), mongo.db.nodes, nodeIds, nodes[..i])
      invariant forall j :: 0 <= j < i ==> nodeIds[j].ObjectId? && nodeIds[j].n < mongo.nextOid
    {
      var inserted := mongo.InsertNode(nodes[i], i in raising);
      if inserted.None? {
        return nodeIds, false;
      }
      nodeIds := nodeIds + [inserted.value];
      assert nodes[..i + 1] == nodes[..i] + [nodes[i]];
    }
    assert nodes[..|nodes|] == nodes;
    return nodeIds, true;
  }

  /** Step 3 of app/crud.py:46-48: the same for the edges. */
  method InsertEdges(mongo: MongoStore, edges: seq<Edge>, raising: set<nat>) returns (edgeIds: seq<DocId>, ok: bool)
    requires mongo.Valid()
    modifies mongo
    ensures mongo.Valid() && mongo.db.graphs == old(mongo.db.graphs) && mongo.db.nodes == old(mongo.db.nodes)
    ensures ok <==> forall i :: 0 <= i < |edges| ==> i !in raising
    ensures |edgeIds| <= |edges| && (ok ==> |edgeIds| == |edges|)
    ensures forall j :: 0 <= j < |edgeIds| ==> j !in raising
    ensures !ok ==> |edgeIds| in raising
    ensures Extends(old(mongo.db.edges), mongo.db.edges, edgeIds, edges[..|edgeIds|])
  {
    edgeIds := [];
    for i := 0 to |edges|
      invariant mongo.Valid() && mongo.db.graphs == old(mongo.db.graphs) && mongo.db.nodes == old(mongo.db.nodes)
      invariant |edgeIds| == i && forall j :: 0 <= j < i ==> j !in raising
      invariant Extends(old(mongo.db.edges), mongo.db.edges, edgeIds, edges[..i])
      invariant forall j :: 0 <= j < i ==> edgeIds[j].ObjectId? && edgeIds[j].n < mongo.nextOid
    {
      var inserted := mongo.InsertEdge(edges[i], i in raising);
      if inserted.None? {
        return edgeIds, false;
      }
      edgeIds := edgeIds + [inserted.value];
      assert edges[..i + 1] == edges[..i] + [edges[i]];
    }
    assert edges[..|edges|] == edges;
    return edgeIds, true;
  }

  /** The delete loops of app/crud.py:59-62. */
  method DeleteAll(mongo: MongoStore, nodeIds: seq<DocId>, edgeIds: seq<DocId>)
    requires mongo.Valid()
    modifies mongo
    ensures mongo.Valid()
    ensures mongo.db == old(mongo.db).(nodes := old(mongo.db.nodes) - Elems(nodeIds), edges := old(mongo.db.edges) - Elems(edgeIds))
  {
    for j := 0 to |nodeIds|
      invariant mongo.Valid() && mongo.db.graphs == old(mongo.db.graphs) && mongo.db.edges == old(mongo.db.edges)
      invariant mongo.db.nodes == old(mongo.db.nodes) - Elems(nodeIds[..j])
    {
      mongo.DeleteNode(nodeIds[j]);
      assert Elems(nodeIds[..j + 1]) == Elems(nodeIds[..j]) + {nodeIds[j]};
    }
    assert nodeIds[..|nodeIds|] == nodeIds;
    for j := 0 to |edgeIds|
      invariant mongo.Valid() && mongo.db.graphs == old(mongo.db.graphs)
      invariant mongo.db.nodes == old(mongo.db.nodes) - Elems(nodeIds)
      invariant mongo.db.edges == old(mongo.db.edges) - Elems(edgeIds[..j])
    {
      mongo.DeleteEdge(edgeIds[j]);
      assert Elems(edgeIds[..j + 1]) == Elems(edgeIds[..j]) + {edgeIds[j]};
    }
    assert edgeIds[..|edgeIds|] == edgeIds;
  }

  /** The compensating deletes as written (app/crud.py:57-62): the graph is deleted only when `graph_id` is truthy. */
  function RolledBackAsWritten(db: Primary, graphId: Option<DocId>, nodeIds: seq<DocId>, edgeIds: seq<DocId>): Primary
  {
    var graphs := if graphId.Some? && graphId.value.ObjectId? then db.graphs - {graphId.value} else db.graphs;
    Primary(graphs, db.nodes - Elems(nodeIds), db.edges - Elems(edgeIds))
  }

  /** The compensating deletes with the graph deleted whenever its insert succeeded. */
  function RolledBack(db: Primary, graphId: Option<DocId>, nodeIds: seq<DocId>, edgeIds: seq<DocId>): Primary
  {
    var graphs := if graphId.Some? then db.graphs - {graphId.value} else db.graphs;
    Primary(graphs, db.nodes - Elems(nodeIds), db.edges - Elems(edgeIds))
  }

  /**
   * A graph whose `_id` is `None` is inserted under the key `None`, so
   * `graph_id` is `None` and the rollback as written leaves the graph document behind.
   */
  lemma NullIdGraphSurvivesRollback(db: Primary, g: Graph)
    requires g.id == NullId && NullId !in db.graphs
    ensures var after := db.(graphs := db.graphs[NullId := g]);
      RolledBackAsWritten(after, Some(NullId), [], []) != db
  {
    var after := db.(graphs := db.graphs[NullId := g]);
    assert NullId in RolledBackAsWritten(after, Some(NullId), [], []).graphs;
  }

  /** The corrected rollback undoes every successful insert, whatever the graph's `_id`. */
  lemma RollbackRestores(db: Primary, after: Primary, graphId: Option<DocId>, g: Graph,
                         nodeIds: seq<DocId>, nodes: seq<Node>, edgeIds: seq<DocId>, edges: seq<Edge>)
    requires graphId.None? ==> after.graphs == db.graphs
    requires graphId.Some? ==> graphId.value !in db.graphs && after.graphs == db.graphs[graphId.value := g]
    requires Extends(db.nodes, after.nodes, nodeIds, nodes)
    requires Extends(db.edges, after.edges, edgeIds, edges)
    ensures RolledBack(after, graphId, nodeIds, edgeIds) == db
  {
    ExtendsUndone(db.nodes, after.nodes, nodeIds, nodes);
    ExtendsUndone(db.edges, after.edges, edgeIds, edges);
    if graphId.Some? {
      assert db.graphs[graphId.value := g] - {graphId.value} == db.graphs;
    }
  }

  /** The corrected compensating deletes. */
  method Rollback(mongo: MongoStore, graphId: Option<DocId>, nodeIds: seq<DocId>, edgeIds: seq<DocId>)
    requires mongo.Valid()
    modifies mongo
    ensures mongo.Valid()
    ensures mongo.db == RolledBack(old(mongo.db), graphId, nodeIds, edgeIds)
  {
    if graphId.Some? {
      mongo.DeleteGraph(graphId.value);
    }
    DeleteAll(mongo, nodeIds, edgeIds);
  }

  /** Every primary insert of `g` succeeds in the store `db` under `faults`. */
  ghost predicate InsertsSucceed(g: Graph, db: Primary, faults: Faults)
  {
    && !faults.graphInsertRaises && g.id !in db.graphs
    && (forall i :: 0 <= i < |g.nodes| ==> i !in faults.nodeInsertRaises)
    && (forall i :: 0 <= i < |g.edges| ==> i !in faults.edgeInsertRaises)
  }

  /**
   * The `try` block of app/crud.py:36-65 for a graph that passed validation:
   * the inserts and the mirror call, and on any failure the compensating
   * deletes before the error is raised again.
   */
  method InsertAndMirror(g: Graph, mongo: MongoStore, mirror: Mirror, faults: Faults) returns (r: Result<DocId, CreateError>)
    requires mongo.Valid()
    modifies mongo, mirror
    ensures mongo.Valid()
    ensures r.Err? ==> mongo.db == old(mongo.db)
    ensures !InsertsSucceed(g, old(mongo.db), faults) ==> r == Err(InsertFailed) && mirror.log == old(mirror.log)
    ensures InsertsSucceed(g, old(mongo.db), faults) && faults.mirror != MirrorSucceeds ==>
      r == Err(MirrorFailed)
      && mirror.log == old(mirror.log) + (if faults.mirror == FailsAfterWriting then [Partial(g)] else [])
    ensures r.Ok? <==> InsertsSucceed(g, old(mongo.db), faults) && faults.mirror == MirrorSucceeds
    ensures r.Ok? ==>
      && r.value == g.id
      && mirror.log == old(mirror.log) + [Complete(g)]
      && mongo.db.graphs == old(mongo.db.graphs)[g.id := g]
      && (exists nodeIds :: Extends(old(mongo.db.nodes), mongo.db.nodes, nodeIds, g.nodes))
      && (exists edgeIds :: Extends(old(mongo.db.edges), mongo.db.edges, edgeIds, g.edges))
  {
    ghost var db0 := mongo.db;
    var graphId := mongo.InsertGraph(g, faults.graphInsertRaises);
    if graphId.None? {
      return Err(InsertFailed);
    }
    var nodeIds, nodesOk := InsertNodes(mongo, g.nodes, faults.nodeInsertRaises);
    if !nodesOk {
      assert Extends(db0.edges, mongo.db.edges, [], []);
      RollbackRestores(db0, mongo.db, graphId, g, nodeIds, g.nodes[..|nodeIds|], [], []);
      Rollback(mongo, graphId, nodeIds, []);
      return Err(InsertFailed);
    }
    assert g.nodes[..|nodeIds|] == g.nodes;
    var edgeIds, edgesOk := InsertEdges(mongo, g.edges, faults.edgeInsertRaises);
    if !edgesOk {
      RollbackRestores(db0, mongo.db, graphId, g, nodeIds, g.nodes, edgeIds, g.edges[..|edgeIds|]);
      Rollback(mongo, graphId, nodeIds, edgeIds);
      return Err(InsertFailed);
    }
    assert g.edges[..|edgeIds|] == g.edges;
    var mirrored := mirror.CreateGraphInMirror(g, faults.mirror);
    if !mirrored {
      RollbackRestores(db0, mongo.db, graphId, g, nodeIds, g.nodes, edgeIds, g.edges);
      Rollback(mongo, graphId, nodeIds, edgeIds);
      return Err(MirrorFailed);
    }
    return Ok(graphId.value);
  }

  /**
   * `create_graph`. An invalid graph is refused before any write; otherwise
   * the graph is stored and mirrored, or, on any failure, the primary store is
   * left as before the call.
   */
  method CreateGraph(g: Graph, mongo: MongoStore, mirror: Mirror, faults: Faults) returns (r: Result<DocId, CreateError>)
    requires mongo.Valid()
    modifies mongo, mirror
    ensures mongo.Valid()
    ensures Validation(g).Fail? ==> r == Err(Invalid(Validation(g).error)) && mongo.db == old(mongo.db) && mirror.log == old(mirror.log)
    ensures r.Err? ==> mongo.db == old(mongo.db)
    ensures r.Ok? <==> Validation(g) == Pass && InsertsSucceed(g, old(mongo.db), faults) && faults.mirror == MirrorSucceeds
    ensures r.Ok? ==>
      && r.value == g.id
      && mirror.log == old(mirror.log) + [Complete(g)]
      && mongo.db.graphs == old(mongo.db.graphs)[g.id := g]
      && (exists nodeIds :: Extends(old(mongo.db.nodes), mongo.db.nodes, nodeIds, g.nodes))
      && (exists edgeIds :: Extends(old(mongo.db.edges), mongo.db.edges, edgeIds, g.edges))
  {
    var verdict := ValidateGraphStructure(g);
    if verdict.Fail? {
      return Err(Invalid(verdict.error));
    }
    r := InsertAndMirror(g, mongo, mirror, faults);
  }
}
