/** The earlier TileParser.AddOsmTile, as functions: one pass over the graph
    in document order, where a node object records a location and a way object
    is added at once. A way gets vertices for its first and last node only and
    is split at every node the GlobalIdMap already knows. */
module TileParserSpec {
  import opened Base
  import opened Store
  import opened TagClassifier
  import opened DecodedTile
  import WalkSpec

  /** The exceptions the loader lets escape: the profile limit, a node that is
      neither mapped nor located, and a way without nodes (nodes[0] on an empty array). */
  datatype Failure = ProfileLimit | NodeMissing(node: int64) | NoNodes

  /** What the loader reads and changes: the network, the profile and meta
      dictionaries, the id map and the tile's own nodeLocations. */
  datatype Load = Load(vertices: seq<Coordinate>, edges: seq<Edge>, profiles: seq<Tags>, metas: seq<Tags>,
                       ids: map<int64, nat>, locations: map<int64, Coordinate>)

  /** Every mapped vertex exists. */
  ghost predicate Valid(s: Load)
  {
    forall k :: k in s.ids ==> s.ids[k] < |s.vertices|
  }

  /** The walk over a way's nodes changes the edges only, and only by appending. */
  ghost predicate EdgesOnly(s: Load, s': Load)
  {
    s'.vertices == s.vertices && s'.profiles == s.profiles && s'.metas == s.metas &&
    s'.ids == s.ids && s'.locations == s.locations &&
    |s.edges| <= |s'.edges| && s'.edges[..|s.edges|] == s.edges
  }

  /** The ids mapped before stay mapped to the same vertex. */
  ghost predicate IdsKept(s: Load, s': Load)
  {
    forall k :: k in s.ids ==> k in s'.ids && s'.ids[k] == s.ids[k]
  }

  /** The distance of an edge: the estimate along the polyline, capped at the
      maximum edge distance. */
  function CappedDistance(env: Env, maxEdgeDistance: nat, points: seq<Coordinate>): (d: nat)
    ensures d <= maxEdgeDistance && d <= ChainLength(env.estimate, points)
    ensures d == ChainLength(env.estimate, points) || d == maxEdgeDistance
  {
    var d := ChainLength(env.estimate, points);
    if d > maxEdgeDistance then maxEdgeDistance else d
  }

  /** The node loop from node n on, with `prev` the open vertex and `shape` the
      buffered points: a mapped node closes an edge from `prev` to its vertex,
      any other node must have a location and is buffered. */
  function WalkFrom(s: Load, env: Env, maxEdgeDistance: nat, nodes: seq<int64>, n: nat, prev: nat,
                    shape: seq<Coordinate>, profile: nat, meta: nat): (r: (Load, Option<Failure>))
    requires Valid(s) && prev < |s.vertices|
    ensures Valid(r.0) && EdgesOnly(s, r.0)
    ensures r.1.Some? ==> r.1.value.NodeMissing?
    ensures forall i :: |s.edges| <= i < |r.0.edges| ==>
      r.0.edges[i].distance <= maxEdgeDistance && r.0.edges[i].profile == profile && r.0.edges[i].meta == meta &&
      r.0.edges[i].from < |s.vertices| && r.0.edges[i].to < |s.vertices|
    decreases |nodes| - n
  {
    if n >= |nodes| then (s, None)
    else if nodes[n] in s.ids then
      var v := s.ids[nodes[n]];
      var e := Edge(prev, v, CappedDistance(env, maxEdgeDistance, [s.vertices[prev]] + shape + [s.vertices[v]]), profile, meta, shape);
      WalkFrom(s.(edges := s.edges + [e]), env, maxEdgeDistance, nodes, n + 1, v, [], profile, meta)
    else if nodes[n] !in s.locations then (s, Some(NodeMissing(nodes[n])))
    else WalkFrom(s, env, maxEdgeDistance, nodes, n + 1, prev, shape + [s.locations[nodes[n]]], profile, meta)
  }

  /** The vertex of a way end: the mapped one, or a new vertex with handle
      VertexCount at the node's location, registered in the map; None is the
      "node missing" exception. */
  function EnsureEnd(s: Load, id: int64): (r: Option<(Load, nat)>)
    requires Valid(s)
    ensures r.None? <==> id !in s.ids && id !in s.locations
    ensures r.Some? ==> Valid(r.value.0) && IdsKept(s, r.value.0) && id in r.value.0.ids && r.value.0.ids[id] == r.value.1
    ensures r.Some? && id in s.ids ==> r.value.0 == s
    ensures r.Some? && id !in s.ids ==>
      r.value.1 == |s.vertices| && r.value.0 == s.(vertices := s.vertices + [s.locations[id]], ids := s.ids[id := r.value.1])
  {
    if id in s.ids then Some((s, s.ids[id]))
    else if id !in s.locations then None
    else
      var v := |s.vertices|;
      Some((s.(vertices := s.vertices + [s.locations[id]], ids := s.ids[id := v]), v))
  }

  /** A way object: its profile and meta (shared with TileParser3's
      AddProfileAndMeta), then, when it has an array of nodes, the first and the
      last node's vertices, then the node loop from the second node with the
      first node's vertex open. A way without an array of nodes is skipped only
      after its profile and meta are interned. */
  function AddWay(s: Load, env: Env, maxEdgeDistance: nat, nodes: Option<seq<int64>>, tags: Tags): (r: (Load, Option<Failure>))
    requires Valid(s)
    ensures WalkSpec.RejectsTags(env.vehicles, tags) ==> r == (s, None)
    ensures Valid(r.0) && IdsKept(s, r.0) && r.0.locations == s.locations
    ensures |s.vertices| <= |r.0.vertices| <= |s.vertices| + 2 && r.0.vertices[..|s.vertices|] == s.vertices
    ensures |s.edges| <= |r.0.edges| && r.0.edges[..|s.edges|] == s.edges
    ensures r.1.None? && !WalkSpec.RejectsTags(env.vehicles, tags) && nodes.Some? ==>
      |nodes.value| > 0 && nodes.value[0] in r.0.ids && nodes.value[|nodes.value| - 1] in r.0.ids
    ensures var pm := WalkSpec.ProfileAndMeta(s.profiles, s.metas, env, tags);
      && (r.1 == Some(ProfileLimit) <==> pm.2.Overflow?)
      && (pm.2.Overflow? ==> r.0 == s.(profiles := pm.0))
      && (nodes.None? ==> r.0 == s.(profiles := pm.0, metas := pm.1) && (r.1.None? || r.1 == Some(ProfileLimit)))
  {
    var (profiles, metas, pm) := WalkSpec.ProfileAndMeta(s.profiles, s.metas, env, tags);
    var s1 := s.(profiles := profiles, metas := metas);
    match pm
    case Rejected => (s1, None)
    case Overflow => (s1, Some(ProfileLimit))
    case Ids(profile, meta) =>
      match nodes
      case None => (s1, None)
      case Some(nodes) =>
        if |nodes| == 0 then (s1, Some(NoNodes))
        else match EnsureEnd(s1, nodes[0])
          case None => (s1, Some(NodeMissing(nodes[0])))
          case Some((s2, first)) =>
            match EnsureEnd(s2, nodes[|nodes| - 1])
            case None => (s2, Some(NodeMissing(nodes[|nodes| - 1])))
            case Some((s3, _)) => WalkFrom(s3, env, maxEdgeDistance, nodes, 1, first, [], profile, meta)
  }

  /** One graph object: a node gets a location unless its id is already
      mapped; a way is added; anything else (a relation) changes nothing. */
  function AddObject(s: Load, env: Env, maxEdgeDistance: nat, o: GraphObject): (r: (Load, Option<Failure>))
    requires Valid(s)
    ensures Valid(r.0) && IdsKept(s, r.0)
    ensures forall k :: k in s.ids ==> (k in r.0.locations <==> k in s.locations)
  {
    match o
    case NodeObject(id, location, _) =>
      if id in s.ids then (s, None) else (s.(locations := s.locations[id := location]), None)
    case WayObject(_, nodes, tags) => AddWay(s, env, maxEdgeDistance, Some(nodes), tags)
    case NodelessWay(_, tags) => AddWay(s, env, maxEdgeDistance, None, tags)
    case OtherObject => (s, None)
  }

  /** The graph in document order; the first exception ends the load with
      whatever was added before it. */
  function AddObjects(s: Load, env: Env, maxEdgeDistance: nat, graph: seq<GraphObject>): (r: (Load, Option<Failure>))
    requires Valid(s)
    ensures Valid(r.0) && IdsKept(s, r.0)
    ensures forall k :: k in s.ids ==> (k in r.0.locations <==> k in s.locations)
    decreases |graph|
  {
    if graph == [] then (s, None)
    else
      var (s', f) := AddObject(s, env, maxEdgeDistance, graph[0]);
      if f.Some? then (s', f) else AddObjects(s', env, maxEdgeDistance, graph[1..])
  }

  /** The locations of the nodes that are buffered as shape points: those not in the map. */
  function Interior(s: Load, nodes: seq<int64>): seq<Coordinate>
  {
    if nodes == [] then []
    else (if nodes[0] !in s.ids && nodes[0] in s.locations then [s.locations[nodes[0]]] else []) + Interior(s, nodes[1..])
  }

  /** All shape points of a run of edges, in order. */
  function Shapes(edges: seq<Edge>): seq<Coordinate>
  {
    if edges == [] then [] else edges[0].shape + Shapes(edges[1..])
  }

  lemma {:induction false} ShapesSnoc(edges: seq<Edge>, e: Edge)
    ensures Shapes(edges + [e]) == Shapes(edges) + e.shape
  {
    if edges != [] {
      assert (edges + [e])[1..] == edges[1..] + [e];
      ShapesSnoc(edges[1..], e);
    }
  }

  lemma {:induction false} ShapesPrepend(e: Edge, edges: seq<Edge>)
    ensures Shapes([e] + edges) == e.shape + Shapes(edges)
  {
    assert ([e] + edges)[1..] == edges;
  }

  /** The shape points of the edges from index k on: edge k's, then the rest. */
  lemma ShapesFrom(edges: seq<Edge>, k: nat)
    requires k < |edges|
    ensures Shapes(edges[k..]) == edges[k].shape + Shapes(edges[k + 1..])
  {
    assert edges[k..] == [edges[k]] + edges[k + 1..];
    ShapesPrepend(edges[k], edges[k + 1..]);
  }

  /** The step at a mapped node: one edge from the open vertex to the node's
      vertex, carrying the buffered shape, which becomes the open vertex. */
  lemma ClosesEdge(s: Load, env: Env, maxEdgeDistance: nat, nodes: seq<int64>, n: nat, prev: nat,
                   shape: seq<Coordinate>, profile: nat, meta: nat) returns (s1: Load, v: nat)
    requires Valid(s) && prev < |s.vertices| && n < |nodes| && nodes[n] in s.ids
    ensures v == s.ids[nodes[n]] && Valid(s1) && v < |s1.vertices|
    ensures s1.ids == s.ids && s1.locations == s.locations && s1.vertices == s.vertices
    ensures |s1.edges| == |s.edges| + 1 && s1.edges[..|s.edges|] == s.edges
    ensures s1.edges[|s.edges|].from == prev && s1.edges[|s.edges|].to == v && s1.edges[|s.edges|].shape == shape
    ensures WalkFrom(s, env, maxEdgeDistance, nodes, n, prev, shape, profile, meta) ==
      WalkFrom(s1, env, maxEdgeDistance, nodes, n + 1, v, [], profile, meta)
  {
    v := s.ids[nodes[n]];
    var e := Edge(prev, v, CappedDistance(env, maxEdgeDistance, [s.vertices[prev]] + shape + [s.vertices[v]]), profile, meta, shape);
    s1 := s.(edges := s.edges + [e]);
  }

  /** A way that passes the vehicles, the profile limit and both ends is walked
      from its second node with its first node's vertex open. */
  lemma AddWayWalks(s: Load, env: Env, maxEdgeDistance: nat, nodes: seq<int64>, tags: Tags)
    returns (s3: Load, first: nat, profile: nat, meta: nat)
    requires Valid(s) && |nodes| >= 1
    requires !WalkSpec.RejectsTags(env.vehicles, tags)
    requires AddWay(s, env, maxEdgeDistance, Some(nodes), tags).1.None?
    ensures Valid(s3) && first < |s3.vertices| && nodes[0] in s3.ids && s3.ids[nodes[0]] == first
    ensures nodes[|nodes| - 1] in s3.ids && s3.edges == s.edges
    ensures AddWay(s, env, maxEdgeDistance, Some(nodes), tags) == WalkFrom(s3, env, maxEdgeDistance, nodes, 1, first, [], profile, meta)
  {
    var (profiles, metas, pm) := WalkSpec.ProfileAndMeta(s.profiles, s.metas, env, tags);
    var s1 := s.(profiles := profiles, metas := metas);
    var s2;
    s2, first := EnsureEnd(s1, nodes[0]).value.0, EnsureEnd(s1, nodes[0]).value.1;
    s3 := EnsureEnd(s2, nodes[|nodes| - 1]).value.0;
    profile, meta := pm.profile, pm.meta;
  }

  /** The edges from index `base` on form one chain from vertex `from` to
      vertex `to`: there is at least one, each ends where the next starts. */
  ghost predicate Chain(edges: seq<Edge>, base: nat, from: nat, to: nat)
  {
    base < |edges| && edges[base].from == from && edges[|edges| - 1].to == to &&
    forall i :: base <= i < |edges| - 1 ==> edges[i].to == edges[i + 1].from
  }

  /** When the walk ends at a mapped node, the edges it adds form one chain:
      the first starts at the open vertex, each ends where the next starts,
      the last ends at the last node's vertex. */
  lemma {:induction false} WalkChains(s: Load, env: Env, maxEdgeDistance: nat, nodes: seq<int64>, n: nat, prev: nat,
                                      shape: seq<Coordinate>, profile: nat, meta: nat)
    requires Valid(s) && prev < |s.vertices| && n < |nodes| && nodes[|nodes| - 1] in s.ids
    requires WalkFrom(s, env, maxEdgeDistance, nodes, n, prev, shape, profile, meta).1.None?
    ensures Chain(WalkFrom(s, env, maxEdgeDistance, nodes, n, prev, shape, profile, meta).0.edges, |s.edges|, prev, s.ids[nodes[|nodes| - 1]])
    decreases |nodes| - n
  {
    var r := WalkFrom(s, env, maxEdgeDistance, nodes, n, prev, shape, profile, meta).0;
    if nodes[n] in s.ids {
      var s1, v := ClosesEdge(s, env, maxEdgeDistance, nodes, n, prev, shape, profile, meta);
      assert r.edges[..|s1.edges|] == s1.edges;
      assert r.edges[|s.edges|] == s1.edges[|s.edges|];
      if n + 1 < |nodes| {
        WalkChains(s1, env, maxEdgeDistance, nodes, n + 1, v, [], profile, meta);
      }
    } else {
      WalkChains(s, env, maxEdgeDistance, nodes, n + 1, prev, shape + [s.locations[nodes[n]]], profile, meta);
    }
  }

  /** When the walk ends at a mapped node, the shapes of the edges it adds are
      exactly the buffered points followed by the locations of the unmapped
      nodes, in order: no point is lost, repeated or made up, and the ends of
      the edges are never among them. */
  lemma {:induction false} WalkShapes(s: Load, env: Env, maxEdgeDistance: nat, nodes: seq<int64>, n: nat, prev: nat,
                                      shape: seq<Coordinate>, profile: nat, meta: nat)
    requires Valid(s) && prev < |s.vertices| && n < |nodes| && nodes[|nodes| - 1] in s.ids
    requires WalkFrom(s, env, maxEdgeDistance, nodes, n, prev, shape, profile, meta).1.None?
    ensures var r := WalkFrom(s, env, maxEdgeDistance, nodes, n, prev, shape, profile, meta).0;
      Shapes(r.edges[|s.edges|..]) == shape + Interior(s, nodes[n..])
    decreases |nodes| - n
  {
    var r := WalkFrom(s, env, maxEdgeDistance, nodes, n, prev, shape, profile, meta).0;
    var k := |s.edges|;
    assert nodes[n..][1..] == nodes[n + 1..];
    if nodes[n] in s.ids {
      var s1, v := ClosesEdge(s, env, maxEdgeDistance, nodes, n, prev, shape, profile, meta);
      assert r.edges[..|s1.edges|] == s1.edges;
      ShapesFrom(r.edges, k);
      assert Interior(s, nodes[n..]) == Interior(s, nodes[n + 1..]);
      if n + 1 < |nodes| {
        WalkShapes(s1, env, maxEdgeDistance, nodes, n + 1, v, [], profile, meta);
        InteriorIgnoresEdges(s, s1, nodes[n + 1..]);
      } else {
        assert r.edges[k + 1..] == [];
        assert nodes[n + 1..] == [];
      }
    } else {
      var p := s.locations[nodes[n]];
      assert Interior(s, nodes[n..]) == [p] + Interior(s, nodes[n + 1..]);
      WalkShapes(s, env, maxEdgeDistance, nodes, n + 1, prev, shape + [p], profile, meta);
    }
  }

  lemma {:induction false} InteriorIgnoresEdges(s: Load, s': Load, nodes: seq<int64>)
    requires s'.ids == s.ids && s'.locations == s.locations
    ensures Interior(s', nodes) == Interior(s, nodes)
    decreases |nodes|
  {
    if nodes != [] {
      InteriorIgnoresEdges(s, s', nodes[1..]);
    }
  }

  /** A way the loader adds in full (two nodes or more) becomes one chain of
      edges from its first node's vertex to its last node's vertex, whose shape
      points are the locations of its interior nodes that were not mapped. */
  lemma WayIsChain(s: Load, env: Env, maxEdgeDistance: nat, nodes: seq<int64>, tags: Tags)
    requires Valid(s) && |nodes| >= 2
    requires !WalkSpec.RejectsTags(env.vehicles, tags)
    requires AddWay(s, env, maxEdgeDistance, Some(nodes), tags).1.None?
    ensures var r := AddWay(s, env, maxEdgeDistance, Some(nodes), tags).0;
      nodes[0] in r.ids && nodes[|nodes| - 1] in r.ids && Chain(r.edges, |s.edges|, r.ids[nodes[0]], r.ids[nodes[|nodes| - 1]])
  {
    var s3, first, profile, meta := AddWayWalks(s, env, maxEdgeDistance, nodes, tags);
    WalkChains(s3, env, maxEdgeDistance, nodes, 1, first, [], profile, meta);
  }

  /** The shape points of a way added in full are the locations of its interior
      nodes that were not mapped, in order. */
  lemma WayShapes(s: Load, env: Env, maxEdgeDistance: nat, nodes: seq<int64>, tags: Tags)
    requires Valid(s) && |nodes| >= 2
    requires !WalkSpec.RejectsTags(env.vehicles, tags)
    requires AddWay(s, env, maxEdgeDistance, Some(nodes), tags).1.None?
    ensures var r := AddWay(s, env, maxEdgeDistance, Some(nodes), tags).0;
      Shapes(r.edges[|s.edges|..]) == Interior(r, nodes[1..])
  {
    var s3, first, profile, meta := AddWayWalks(s, env, maxEdgeDistance, nodes, tags);
    WalkShapes(s3, env, maxEdgeDistance, nodes, 1, first, [], profile, meta);
    InteriorIgnoresEdges(s3, AddWay(s, env, maxEdgeDistance, Some(nodes), tags).0, nodes[1..]);
  }
}
