/** The earlier TileParser.AddOsmTile as the imperative loader it is: one
    pass over the graph that fills nodeLocations and adds every way as soon as
    it is read, changing the router database and the GlobalIdMap in place.
    Each step is proved to do what TileParserSpec prescribes; an exception is
    the returned failure, with everything added before it kept. */
module TileParser {
  import opened Base
  import opened Store
  import opened DecodedTile
  import opened GlobalIds
  import opened TileParserSpec
  import TileParser3

  /** The load state that the database, the id map and nodeLocations make up together. */
  ghost function State(db: RouterDb, ids: GlobalIdMap, locations: map<int64, Coordinate>): Load
    reads db, ids
  {
    Load(db.vertices, db.edges, db.profiles, db.metas, ids.vertexPerId, locations)
  }

  /** AddOsmTile on a downloaded tile (None when the download failed or the
      document has no graph): the graph objects in document order, as AddObjects
      prescribes, from an empty nodeLocations. */
  method AddOsmTile(db: RouterDb, ids: GlobalIdMap, env: Env, maxEdgeDistance: nat, tile: Option<seq<GraphObject>>)
    returns (failure: Option<Failure>, ghost nodeLocations: map<int64, Coordinate>)
    requires forall k :: k in ids.vertexPerId ==> ids.vertexPerId[k] < |db.vertices|
    modifies db`vertices, db`edges, db`profiles, db`metas, ids
    ensures tile.None? ==> failure.None? && unchanged(db, ids)
    ensures tile.Some? ==>
      (State(db, ids, nodeLocations), failure) == AddObjects(old(State(db, ids, map[])), env, maxEdgeDistance, tile.value)
  {
    nodeLocations := map[];
    if tile.None? {
      return None, nodeLocations;
    }
    var graph := tile.value;
    var locations: map<int64, Coordinate> := map[];
    ghost var final := AddObjects(State(db, ids, locations), env, maxEdgeDistance, graph);
    var i := 0;
    while i < |graph|
      invariant i <= |graph|
      invariant Valid(State(db, ids, locations))
      invariant AddObjects(State(db, ids, locations), env, maxEdgeDistance, graph[i..]) == final
    {
      assert graph[i..][1..] == graph[i + 1..];
      match graph[i] {
        case NodeObject(id, location, _) =>
          var found, _ := ids.TryGet(id);
          if !found {
            locations := locations[id := location];
          }
        case WayObject(_, nodes, tags) =>
          failure := AddWay(db, ids, env, maxEdgeDistance, locations, Some(nodes), tags);
          if failure.Some? {
            return failure, locations;
          }
        case NodelessWay(_, tags) =>
          failure := AddWay(db, ids, env, maxEdgeDistance, locations, None, tags);
          if failure.Some? {
            return failure, locations;
          }
        case OtherObject =>
      }
      i := i + 1;
    }
    failure, nodeLocations := None, locations;
  }

  /** A way object: profile and meta, then, when it has an array of nodes, the
      two end vertices and the node loop. */
  method AddWay(db: RouterDb, ids: GlobalIdMap, env: Env, maxEdgeDistance: nat, locations: map<int64, Coordinate>,
                wayNodes: Option<seq<int64>>, tags: Tags)
    returns (failure: Option<Failure>)
    requires Valid(State(db, ids, locations))
    modifies db`vertices, db`edges, db`profiles, db`metas, ids
    ensures (State(db, ids, locations), failure) == TileParserSpec.AddWay(old(State(db, ids, locations)), env, maxEdgeDistance, wayNodes, tags)
  {
    var pm := TileParser3.AddProfileAndMeta(db, env, tags);
    if pm.Rejected? {
      return None;
    }
    if pm.Overflow? {
      return Some(ProfileLimit);
    }
    if wayNodes.None? {
      return None;
    }
    var nodes := wayNodes.value;
    if |nodes| == 0 {
      return Some(NoNodes);
    }
    var found, previousVertex := MapEnd(db, ids, locations, nodes[0]);
    if !found {
      return Some(NodeMissing(nodes[0]));
    }
    var foundLast, _ := MapEnd(db, ids, locations, nodes[|nodes| - 1]);
    if !foundLast {
      return Some(NodeMissing(nodes[|nodes| - 1]));
    }
    failure := WalkNodes(db, ids, env, maxEdgeDistance, locations, nodes, previousVertex, pm.profile, pm.meta);
  }

  /** The vertex of a way end: TryGet, and on a miss the node's location, a new
      vertex at VertexCount and Set; `found` is false for the missing-node exception. */
  method MapEnd(db: RouterDb, ids: GlobalIdMap, locations: map<int64, Coordinate>, nodeId: int64)
    returns (found: bool, vertex: nat)
    requires Valid(State(db, ids, locations))
    modifies db`vertices, ids
    ensures found == EnsureEnd(old(State(db, ids, locations)), nodeId).Some?
    ensures found ==> (State(db, ids, locations), vertex) == EnsureEnd(old(State(db, ids, locations)), nodeId).value
    ensures !found ==> State(db, ids, locations) == old(State(db, ids, locations))
  {
    found, vertex := ids.TryGet(nodeId);
    if !found {
      if nodeId !in locations {
        return false, 0;
      }
      vertex := db.VertexCount();
      db.AddVertex(vertex, locations[nodeId]);
      ids.Set(nodeId, vertex);
      found := true;
    }
  }

  /** The loop over nodes 1..Count-1: a mapped node closes an edge from
      previousVertex (the shape gets both end locations for the distance and
      loses them again before AddEdge), any other node is buffered. */
  method WalkNodes(db: RouterDb, ids: GlobalIdMap, env: Env, maxEdgeDistance: nat, locations: map<int64, Coordinate>,
                   nodes: seq<int64>, first: nat, profile: nat, meta: nat)
    returns (failure: Option<Failure>)
    requires Valid(State(db, ids, locations)) && first < |db.vertices|
    modifies db`edges
    ensures (State(db, ids, locations), failure) ==
      WalkFrom(old(State(db, ids, locations)), env, maxEdgeDistance, nodes, 1, first, [], profile, meta)
  {
    ghost var final := WalkFrom(State(db, ids, locations), env, maxEdgeDistance, nodes, 1, first, [], profile, meta);
    var previousVertex: nat := first;
    var shape: seq<Coordinate> := [];
    var n: nat := 1;
    while n < |nodes|
      invariant Valid(State(db, ids, locations)) && previousVertex < |db.vertices|
      invariant WalkFrom(State(db, ids, locations), env, maxEdgeDistance, nodes, n, previousVertex, shape, profile, meta) == final
      decreases |nodes| - n
    {
      var nodeId := nodes[n];
      var found, vertexId := ids.TryGet(nodeId);
      if found {
        AddShapedEdge(db, env, maxEdgeDistance, previousVertex, vertexId, shape, profile, meta);
        shape := [];
        previousVertex := vertexId;
      } else {
        if nodeId !in locations {
          return Some(NodeMissing(nodeId));
        }
        shape := shape + [locations[nodeId]];
      }
      n := n + 1;
    }
    failure := None;
  }

  /** The edge a mapped node closes: the shape gets the two end locations for
      the distance (capped at the maximum edge distance) and loses them again
      before AddEdge, so the edge keeps exactly the buffered points. */
  method AddShapedEdge(db: RouterDb, env: Env, maxEdgeDistance: nat, previousVertex: nat, vertexId: nat,
                       buffered: seq<Coordinate>, profile: nat, meta: nat)
    requires previousVertex < |db.vertices| && vertexId < |db.vertices|
    modifies db`edges
    ensures db.edges == old(db.edges) + [Edge(previousVertex, vertexId,
      CappedDistance(env, maxEdgeDistance, [db.vertices[previousVertex]] + buffered + [db.vertices[vertexId]]), profile, meta, buffered)]
  {
    var shape := buffered;
    shape := [db.vertices[previousVertex]] + shape;
    shape := shape + [db.vertices[vertexId]];
    var distance := ChainLength(env.estimate, shape);
    if distance > maxEdgeDistance {
      distance := maxEdgeDistance;
    }
    shape := shape[1..];
    shape := shape[..|shape| - 1];
    assert shape == buffered;
    db.AddEdge(previousVertex, vertexId, distance, profile, meta, shape);
  }
}
