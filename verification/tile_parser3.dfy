/** TileParser3.AddOsmTile as the imperative loader it is: it reads a decoded
    tile into its node table, way table and core set, then walks every way
    segment by segment, adding vertices and edges to the router database and
    node ids to the GlobalIdMap. Every step is proved to do what the walk
    functions of WalkSpec prescribe for the same `fix`: false runs the code as
    written, true the corrected promotion of a boundary-crossing segment
    (see WalkSpec.Promote). */
module TileParser3 {
  import opened Base
  import opened Store
  import opened TagClassifier
  import opened DecodedTile
  import opened GlobalIds
  import opened WalkSpec

  /** The walk's own variables: coreNodes, shape, previousVertex and updated. */
  datatype Locals = Locals(coreNodes: set<int64>, shape: seq<Coordinate>, previousVertex: Cursor, updated: bool)

  /** The node ids behind the shape buffer, the open vertex and the emitted
      edges; the source does not keep them, the proofs are stated in them. */
  datatype Trail = Trail(shapeNodes: seq<int64>, cursorNode: int64, trace: seq<EdgeNodes>)

  /** The walk state the database, the id map and the walk's variables make up together. */
  ghost function Snap(db: RouterDb, ids: GlobalIdMap, l: Locals, t: Trail): WalkState
    reads db, ids
  {
    WalkState(db.vertices, db.edges, db.profiles, db.metas, ids.vertexPerId,
              l.coreNodes, l.shape, l.previousVertex, l.updated, t.shapeNodes, t.cursorNode, t.trace)
  }

  lemma PassSnoc(refs: seq<Ref>, r: Ref)
    ensures Pass(refs + [r]) == Visit(Pass(refs), r)
  {
    assert (refs + [r])[..|refs|] == refs;
  }

  /** The pass over the graph: nodeLocations and waysData (the last object with
      an id wins), and the core set (way ends, and nodes sighted a second time). */
  method ReadGraph(graph: seq<GraphObject>) returns (nodeLocations: map<int64, NodeInfo>, waysData: map<int64, WayData>, coreNodes: set<int64>)
    ensures nodeLocations == NodeTable(graph)
    ensures waysData == WayTable(graph)
    ensures coreNodes == CoreNodes(graph)
  {
    nodeLocations, waysData, coreNodes := map[], map[], {};
    var nodes: set<int64> := {};
    var i := 0;
    while i < |graph|
      invariant i <= |graph|
      invariant nodeLocations == NodeTable(graph[..i])
      invariant waysData == WayTable(graph[..i])
      invariant Seen(nodes, coreNodes) == Pass(Refs(graph[..i]))
    {
      var o := graph[i];
      assert graph[..i + 1][..i] == graph[..i];
      assert graph[..i + 1][i] == o;
      assert Refs(graph[..i + 1]) == Refs(graph[..i]) + ObjectRefs(o);
      if o.NodeObject? {
        nodeLocations := nodeLocations[o.id := NodeInfo(o.location, o.inTile)];
        assert Refs(graph[..i]) + ObjectRefs(o) == Refs(graph[..i]);
      } else if o.WayObject? {
        nodes, coreNodes := ReadWayNodes(nodes, coreNodes, o.nodes, Refs(graph[..i]));
        waysData := waysData[o.id := WayData(o.nodes, o.tags)];
      } else {
        assert Refs(graph[..i]) + ObjectRefs(o) == Refs(graph[..i]);
      }
      i := i + 1;
    }
    assert graph[..|graph|] == graph;
  }

  /** The loop over a way's nodes: the first and the last are core, an
      interior node is core when it was seen before; every node is then seen. */
  method ReadWayNodes(nodes: set<int64>, coreNodes: set<int64>, wayNodes: seq<int64>, ghost refs: seq<Ref>)
    returns (nodes': set<int64>, coreNodes': set<int64>)
    requires Seen(nodes, coreNodes) == Pass(refs)
    ensures Seen(nodes', coreNodes') == Pass(refs + WayRefs(wayNodes))
  {
    nodes', coreNodes' := nodes, coreNodes;
    ghost var way := WayRefs(wayNodes);
    assert refs + way[..0] == refs;
    var n := 0;
    while n < |wayNodes|
      invariant n <= |wayNodes|
      invariant Seen(nodes', coreNodes') == Pass(refs + way[..n])
    {
      var nodeId := wayNodes[n];
      if n == 0 || n == |wayNodes| - 1 {
        coreNodes' := coreNodes' + {nodeId};
      } else if nodeId in nodes' {
        coreNodes' := coreNodes' + {nodeId};
      }
      nodes' := nodes' + {nodeId};
      PassSnoc(refs + way[..n], way[n]);
      assert refs + way[..n + 1] == refs + way[..n] + [way[n]];
      n := n + 1;
    }
    assert way[..|wayNodes|] == way;
  }

  /** AddProfileAndMeta: the sentinel for tags no vehicle can use, the
      "maximum supported profiles exceeded" exception after the profile was
      added, or the interned profile and meta ids. */
  method AddProfileAndMeta(db: RouterDb, env: Env, attributes: Tags) returns (pm: ProfileMeta)
    modifies db`profiles, db`metas
    ensures (db.profiles, db.metas, pm) == ProfileAndMeta(old(db.profiles), old(db.metas), env, attributes)
  {
    var whitelist := env.vehicles.whitelist(attributes);
    if whitelist.None? {
      return Rejected;
    }
    var profileTags, metaTags := SplitTags(env.vehicles, attributes, whitelist.value);
    if !env.vehicles.anyCanTraverse(profileTags) {
      return Rejected;
    }
    var profile := db.AddProfile(profileTags);
    if profile > env.maxProfileCount {
      return Overflow;
    }
    var meta := db.AddMeta(metaTags);
    return Ids(profile, meta);
  }

  /** Distance: the estimate summed from vertex1 through the shape points to vertex2. */
  method Distance(db: RouterDb, env: Env, vertex1: nat, vertex2: nat, shape: seq<Coordinate>) returns (distance: nat)
    requires vertex1 < |db.vertices| && vertex2 < |db.vertices|
    ensures distance == EdgeDistance(env, db.vertices, vertex1, vertex2, shape)
  {
    distance := 0;
    var previous := db.vertices[vertex1];
    ghost var points := [db.vertices[vertex1]];
    var i := 0;
    while i < |shape|
      invariant i <= |shape|
      invariant points == [db.vertices[vertex1]] + shape[..i]
      invariant previous == points[|points| - 1]
      invariant distance == ChainLength(env.estimate, points)
    {
      ChainSnoc(env.estimate, points, shape[i]);
      distance := distance + env.estimate(previous, shape[i]);
      previous := shape[i];
      points := points + [shape[i]];
      assert shape[..i + 1] == shape[..i] + [shape[i]];
      i := i + 1;
    }
    ChainSnoc(env.estimate, points, db.vertices[vertex2]);
    distance := distance + env.estimate(previous, db.vertices[vertex2]);
    assert shape[..|shape|] == shape;
  }

  /** The vertex of a core node: TryGet, and on a miss AddVertex at VertexCount, Set and updated. */
  method AddCoreVertex(db: RouterDb, ids: GlobalIdMap, id: int64, location: Coordinate, l: Locals, ghost t: Trail)
    returns (vertex: nat, l': Locals)
    requires Good(Snap(db, ids, l, t))
    modifies db`vertices, ids
    ensures (Snap(db, ids, l', t), vertex) == EnsureVertex(old(Snap(db, ids, l, t)), id, location)
  {
    var found;
    found, vertex := ids.TryGet(id);
    l' := l;
    if !found {
      vertex := db.VertexCount();
      db.AddVertex(vertex, location);
      ids.Set(id, vertex);
      l' := l.(updated := true);
    }
  }

  /** AddEdge with the distance through the buffered shape, then shape.Clear(). */
  method AddShapedEdge(db: RouterDb, ids: GlobalIdMap, env: Env, from: nat, to: nat, pm: ProfileMeta, l: Locals, ghost t: Trail,
                       ghost fromNode: int64, ghost toNode: int64)
    returns (l': Locals, ghost t': Trail)
    requires Good(Snap(db, ids, l, t)) && from < |db.vertices| && to < |db.vertices| && pm.Ids?
    modifies db`edges
    ensures Snap(db, ids, l', t') == EmitEdge(old(Snap(db, ids, l, t)), env, from, to, fromNode, toNode, pm)
  {
    var distance := Distance(db, env, from, to, l.shape);
    db.AddEdge(from, to, distance, pm.profile, pm.meta, l.shape);
    l' := l.(updated := true, shape := []);
    t' := t.(trace := t.trace + [EdgeNodes(fromNode, toNode, t.shapeNodes)], shapeNodes := []);
  }

  /** A boundary-crossing segment makes both nodes core. When node1 only now
      becomes core with an open vertex, node1 is the last buffered shape point;
      the corrected walk drops it there, where the walk as written keeps it. */
  method PromoteBoundary(db: RouterDb, ids: GlobalIdMap, node1Id: int64, node2Id: int64, l: Locals, ghost t: Trail, fix: bool) returns (l': Locals, ghost t': Trail)
    requires Good(Snap(db, ids, l, t))
    ensures Snap(db, ids, l', t') == Promote(Snap(db, ids, l, t), node1Id, node2Id, fix)
  {
    l', t' := l, t;
    if fix && node1Id !in l.coreNodes && l.previousVertex.At? && |l.shape| > 0 {
      l' := l'.(shape := l.shape[..|l.shape| - 1]);
      if |t.shapeNodes| > 0 {
        t' := t'.(shapeNodes := t.shapeNodes[..|t.shapeNodes| - 1]);
      }
    }
    l' := l'.(coreNodes := l.coreNodes + {node1Id, node2Id});
  }

  /** Node1 is core: its vertex closes the open edge, if any, and becomes the
      open vertex when it lies in the tile, unless it already is the open vertex. */
  method Node1Core(db: RouterDb, ids: GlobalIdMap, env: Env, node1Id: int64, node1Data: NodeInfo, pm: ProfileMeta, l: Locals, ghost t: Trail)
    returns (l': Locals, ghost t': Trail)
    requires Good(Snap(db, ids, l, t)) && pm.Ids?
    modifies db`vertices, db`edges, ids
    ensures Snap(db, ids, l', t') == Node1(old(Snap(db, ids, l, t)), env, node1Id, node1Data, pm)
  {
    var vertex;
    vertex, l' := AddCoreVertex(db, ids, node1Id, node1Data.location, l, t);
    t' := t;
    if l'.previousVertex != At(vertex) {
      if l'.previousVertex.At? {
        l', t' := AddShapedEdge(db, ids, env, l'.previousVertex.vertex, vertex, pm, l', t', t'.cursorNode, node1Id);
      }
      if node1Data.inTile {
        l' := l'.(previousVertex := At(vertex));
        t' := t'.(cursorNode := node1Id);
      } else {
        l' := l'.(previousVertex := NoVertex);
      }
    }
  }

  /** The promotion of a boundary-crossing segment, then the node1 step when node1 is core. */
  method Node1Step(db: RouterDb, ids: GlobalIdMap, env: Env, node1Id: int64, node1Data: NodeInfo, node2Id: int64,
                   crossing: bool, pm: ProfileMeta, l: Locals, ghost t: Trail, fix: bool)
    returns (l': Locals, ghost t': Trail)
    requires Good(Snap(db, ids, l, t)) && pm.Ids?
    modifies db`vertices, db`edges, ids
    ensures Snap(db, ids, l', t') == HeadStep(old(Snap(db, ids, l, t)), env, node1Id, node1Data, node2Id, crossing, pm, fix)
  {
    l', t' := l, t;
    if crossing {
      l', t' := PromoteBoundary(db, ids, node1Id, node2Id, l, t, fix);
    }
    assert Snap(db, ids, l', t') == (if crossing then Promote(old(Snap(db, ids, l, t)), node1Id, node2Id, fix) else old(Snap(db, ids, l, t)));
    if node1Id in l'.coreNodes {
      l', t' := Node1Core(db, ids, env, node1Id, node1Data, pm, l', t');
    }
  }

  /** Node2 is core: its vertex ends the boundary edge from node1's vertex (an
      exception if node1 has none), or closes the open edge; then it becomes
      the open vertex when it lies in the tile. */
  method Node2Step(db: RouterDb, ids: GlobalIdMap, env: Env, node1Id: int64, node2Id: int64, node2Data: NodeInfo,
                   crossing: bool, pm: ProfileMeta, l: Locals, ghost t: Trail)
    returns (l': Locals, ghost t': Trail, flow: Flow)
    requires Good(Snap(db, ids, l, t)) && pm.Ids?
    modifies db`vertices, db`edges, ids
    ensures (Snap(db, ids, l', t'), flow) == Node2(old(Snap(db, ids, l, t)), env, node1Id, node2Id, node2Data, crossing, pm)
  {
    var vertex;
    vertex, l' := AddCoreVertex(db, ids, node2Id, node2Data.location, l, t);
    t' := t;
    if crossing {
      var found, previousVertex := ids.TryGet(node1Id);
      if !found {
        return l', t', Abort(BoundaryVertexMissing);
      }
      l', t' := AddShapedEdge(db, ids, env, previousVertex, vertex, pm, l', t', node1Id, node2Id);
    } else if l'.previousVertex.At? {
      l', t' := AddShapedEdge(db, ids, env, l'.previousVertex.vertex, vertex, pm, l', t', t'.cursorNode, node2Id);
    }
    if node2Data.inTile {
      l' := l'.(previousVertex := At(vertex));
      t' := t'.(cursorNode := node2Id);
    } else {
      l' := l'.(previousVertex := NoVertex);
    }
    flow := Next;
  }

  /** One pass of the segment loop for the segment wayNodes[n] -> wayNodes[n + 1]. */
  method AddSegment(db: RouterDb, ids: GlobalIdMap, env: Env, nodeLocations: map<int64, NodeInfo>,
                    wayNodes: seq<int64>, attributes: Tags, n: nat, l: Locals, ghost t: Trail, fix: bool)
    returns (l': Locals, ghost t': Trail, flow: Flow)
    requires Good(Snap(db, ids, l, t)) && n + 1 < |wayNodes|
    modifies db`vertices, db`edges, db`profiles, db`metas, ids
    ensures (Snap(db, ids, l', t'), flow) == Segment(old(Snap(db, ids, l, t)), env, nodeLocations, wayNodes, attributes, n, fix)
  {
    l', t' := l, t;
    var node1Id, node2Id := wayNodes[n], wayNodes[n + 1];
    if node1Id !in nodeLocations {
      return l', t', Break;
    }
    if node2Id !in nodeLocations {
      return l', t', Break;
    }
    var node1Data, node2Data := nodeLocations[node1Id], nodeLocations[node2Id];
    var pm := AddProfileAndMeta(db, env, attributes);
    if pm.Overflow? {
      return l', t', Abort(ProfileOverflow);
    }
    if pm.Rejected? {
      return l', t', Next;
    }
    l', t', flow := AddNodeSteps(db, ids, env, node1Id, node1Data, node2Id, node2Data, pm, l', t', fix);
  }

  /** The node steps of a segment whose tags were accepted: the head step, then
      node2's step when node2 is core, or else node2 buffered behind an open vertex. */
  method AddNodeSteps(db: RouterDb, ids: GlobalIdMap, env: Env, node1Id: int64, node1Data: NodeInfo, node2Id: int64, node2Data: NodeInfo,
                      pm: ProfileMeta, l: Locals, ghost t: Trail, fix: bool)
    returns (l': Locals, ghost t': Trail, flow: Flow)
    requires Good(Snap(db, ids, l, t)) && pm.Ids?
    modifies db`vertices, db`edges, ids
    ensures (Snap(db, ids, l', t'), flow) == NodeSteps(old(Snap(db, ids, l, t)), env, node1Id, node1Data, node2Id, node2Data, pm, fix)
  {
    var crossing := !node1Data.inTile || !node2Data.inTile;
    l', t' := Node1Step(db, ids, env, node1Id, node1Data, node2Id, crossing, pm, l, t, fix);
    if node2Id in l'.coreNodes {
      l', t', flow := Node2Step(db, ids, env, node1Id, node2Id, node2Data, crossing, pm, l', t');
    } else {
      if l'.previousVertex.At? {
        l' := l'.(shape := l'.shape + [node2Data.location]);
        t' := t'.(shapeNodes := t'.shapeNodes + [node2Id]);
      }
      flow := Next;
    }
  }

  /** The segment loop of one way: it runs until the way ends or a segment
      stops it; `n` counts the segments walked. */
  method AddSegments(db: RouterDb, ids: GlobalIdMap, env: Env, nodeLocations: map<int64, NodeInfo>, way: WayData, l: Locals, ghost t: Trail, fix: bool)
    returns (l': Locals, ghost t': Trail, flow: Flow, n: nat)
    requires Good(Snap(db, ids, l, t)) && 1 < |way.nodes|
    modifies db`vertices, db`edges, db`profiles, db`metas, ids
    ensures n < |way.nodes| && (flow != Next || n == |way.nodes| - 1)
    ensures Segments(old(Snap(db, ids, l, t)), env, nodeLocations, way.nodes, way.tags, n, fix) == (Snap(db, ids, l', t'), flow)
  {
    ghost var s0 := Snap(db, ids, l, t);
    l', t', flow, n := l, t, Next, 0;
    while n < |way.nodes| - 1 && flow == Next
      invariant n <= |way.nodes| - 1
      invariant Segments(s0, env, nodeLocations, way.nodes, way.tags, n, fix) == (Snap(db, ids, l', t'), flow)
    {
      l', t', flow, n := NextSegment(db, ids, env, nodeLocations, way, n, l', t', s0, fix);
    }
  }

  /** The body of the segment loop, as the step from n to n + 1 walked segments. */
  method NextSegment(db: RouterDb, ids: GlobalIdMap, env: Env, nodeLocations: map<int64, NodeInfo>, way: WayData, n: nat,
                     l: Locals, ghost t: Trail, ghost s0: WalkState, fix: bool)
    returns (l': Locals, ghost t': Trail, flow: Flow, next: nat)
    requires Good(s0) && n + 1 < |way.nodes|
    requires Segments(s0, env, nodeLocations, way.nodes, way.tags, n, fix) == (Snap(db, ids, l, t), Next)
    modifies db`vertices, db`edges, db`profiles, db`metas, ids
    ensures next == n + 1
    ensures Segments(s0, env, nodeLocations, way.nodes, way.tags, next, fix) == (Snap(db, ids, l', t'), flow)
  {
    next := n + 1;
    SegmentsNext(s0, env, nodeLocations, way.nodes, way.tags, n, fix);
    l', t', flow := AddSegment(db, ids, env, nodeLocations, way.nodes, way.tags, n, l, t, fix);
  }

  /** One way: shape.Clear(), previousVertex := NO_VERTEX, skip a way of at
      most one node, walk its segments; a missing node ends only this way. */
  method AddWay(db: RouterDb, ids: GlobalIdMap, env: Env, nodeLocations: map<int64, NodeInfo>, way: WayData, l: Locals, ghost t: Trail, fix: bool)
    returns (l': Locals, ghost t': Trail, flow: Flow)
    requires Good(Snap(db, ids, l, t))
    modifies db`vertices, db`edges, db`profiles, db`metas, ids
    ensures (Snap(db, ids, l', t'), flow) == WalkWay(old(Snap(db, ids, l, t)), env, nodeLocations, way, fix)
  {
    l' := l.(shape := [], previousVertex := NoVertex);
    t' := t.(shapeNodes := []);
    flow := Next;
    if |way.nodes| <= 1 {
      return;
    }
    ghost var start := Snap(db, ids, l', t');
    assert start == old(Snap(db, ids, l, t)).(shape := [], shapeNodes := [], cursor := NoVertex);
    var n;
    l', t', flow, n := AddSegments(db, ids, env, nodeLocations, way, l', t', fix);
    WalkWayFinish(old(Snap(db, ids, l, t)), start, env, nodeLocations, way, n, fix, (Snap(db, ids, l', t'), flow));
    if flow == Break {
      flow := Next;
    }
  }

  /** The loop over the way table: each way is walked once, in the order the
      dictionary enumerates them (`order`), until an exception aborts the walk. */
  method AddWays(db: RouterDb, ids: GlobalIdMap, env: Env, nodeLocations: map<int64, NodeInfo>, waysData: map<int64, WayData>,
                 l: Locals, ghost t: Trail, fix: bool)
    returns (l': Locals, ghost t': Trail, ghost order: seq<int64>)
    requires Good(Snap(db, ids, l, t))
    modifies db`vertices, db`edges, db`profiles, db`metas, ids
    ensures forall i :: 0 <= i < |order| ==> order[i] in waysData
    ensures forall i, j :: 0 <= i < j < |order| ==> order[i] != order[j]
    ensures var r := WalkWays(old(Snap(db, ids, l, t)), env, nodeLocations, waysData, order, fix);
      Snap(db, ids, l', t') == r.0 && (r.1 == Next ==> forall k :: k in waysData ==> k in order)
  {
    ghost var st0 := Snap(db, ids, l, t);
    l', t', order := l, t, [];
    var remaining := waysData.Keys;
    while remaining != {}
      invariant remaining <= waysData.Keys
      invariant forall i :: 0 <= i < |order| ==> order[i] in waysData && order[i] !in remaining
      invariant forall i, j :: 0 <= i < j < |order| ==> order[i] != order[j]
      invariant forall k :: k in waysData && k !in remaining ==> k in order
      invariant WalkWays(st0, env, nodeLocations, waysData, order, fix) == (Snap(db, ids, l', t'), Next)
      decreases remaining
    {
      var wayId :| wayId in remaining;
      ghost var before := order;
      order := order + [wayId];
      assert order[..|order| - 1] == before;
      remaining := remaining - {wayId};
      var flow;
      l', t', flow := AddWay(db, ids, env, nodeLocations, waysData[wayId], l', t', fix);
      if flow.Abort? {
        return;
      }
    }
  }

  /** AddOsmTile on a downloaded tile (None when the download or the parse of
      the graph failed): every way of the way table is walked once, in the
      order the dictionary enumerates them (`order`), until an exception aborts
      the walk; the result is exactly the walk of WalkSpec (as written when
      `fix` is false, corrected when it is true) from the database and id map
      as they were, and `updated` is its flag. */
  method AddOsmTile(db: RouterDb, ids: GlobalIdMap, env: Env, tile: Option<seq<GraphObject>>, fix: bool) returns (updated: bool, ghost order: seq<int64>)
    requires forall k :: k in ids.vertexPerId ==> ids.vertexPerId[k] < |db.vertices|
    modifies db`vertices, db`edges, db`profiles, db`metas, ids
    ensures tile.None? ==> !updated && order == [] && unchanged(db, ids)
    ensures tile.Some? ==> forall i :: 0 <= i < |order| ==> order[i] in WayTable(tile.value)
    ensures forall i, j :: 0 <= i < j < |order| ==> order[i] != order[j]
    ensures tile.Some? ==>
      var r := WalkWays(Start(old(db.vertices), old(db.edges), old(db.profiles), old(db.metas), old(ids.vertexPerId), CoreNodes(tile.value)),
                        env, NodeTable(tile.value), WayTable(tile.value), order, fix);
      && db.vertices == r.0.vertices && db.edges == r.0.edges && db.profiles == r.0.profiles && db.metas == r.0.metas
      && ids.vertexPerId == r.0.ids && updated == r.0.updated
      && (r.1 == Next ==> forall k :: k in WayTable(tile.value) ==> k in order)
  {
    updated, order := false, [];
    if tile.None? {
      return;
    }
    var nodeLocations, waysData, coreNodes := ReadGraph(tile.value);
    ghost var st0 := Start(db.vertices, db.edges, db.profiles, db.metas, ids.vertexPerId, coreNodes);
    var l := Locals(coreNodes, [], NoVertex, false);
    ghost var t := Trail([], 0, []);
    assert Snap(db, ids, l, t) == st0;
    l, t, order := AddWays(db, ids, env, nodeLocations, waysData, l, t, fix);
    updated := l.updated;
  }
}
