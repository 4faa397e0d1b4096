/** The segment walk of TileParser3.AddOsmTile as functions on a value: the
    state is everything the walk reads or writes (the network, the profile and
    meta dictionaries, the global-id map, the core set, the shape buffer, the
    cursor and the `updated` flag), plus the node ids behind the shape buffer,
    the cursor and each emitted edge, which the source does not keep but which
    the properties below are stated in.

    `fix` selects between the code as written (false) and the corrected walk
    (true), which differ in one place: see Promote. */
module WalkSpec {
  import opened Base
  import opened Store
  import opened TagClassifier
  import opened DecodedTile
  import opened GlobalIds

  /** previousVertex: NO_VERTEX or an open vertex. */
  datatype Cursor = NoVertex | At(vertex: nat)

  /** The node ids behind an emitted edge: its two ends and its shape points. */
  datatype EdgeNodes = EdgeNodes(from: int64, to: int64, shape: seq<int64>)

  datatype WalkState = WalkState(
    vertices: seq<Coordinate>,
    edges: seq<Edge>,
    profiles: seq<Tags>,
    metas: seq<Tags>,
    ids: map<int64, nat>,
    core: set<int64>,
    shape: seq<Coordinate>,
    cursor: Cursor,
    updated: bool,
    shapeNodes: seq<int64>,
    cursorNode: int64,
    trace: seq<EdgeNodes>)

  /** The outcome of AddProfileAndMeta: the (ushort.MaxValue, uint.MaxValue)
      sentinel, the "maximum supported profiles exceeded" exception, or the ids. */
  datatype ProfileMeta = Rejected | Overflow | Ids(profile: nat, meta: nat)

  /** Why a tile walk stopped: the two exceptions the outer catch swallows. */
  datatype Failure = ProfileOverflow | BoundaryVertexMissing

  /** After a segment: go on, stop this way (a node is missing), or abort the tile. */
  datatype Flow = Next | Break | Abort(failure: Failure)

  /** The store holds every vertex the map and the cursor point at. */
  ghost predicate Good(st: WalkState)
  {
    && (forall k :: k in st.ids ==> st.ids[k] < |st.vertices|)
    && (st.cursor.At? ==> st.cursor.vertex < |st.vertices|)
  }

  /** Whether the vehicles reject a way's tags: depends on the tags only. */
  function RejectsTags(vehicles: Vehicles, tags: Tags): bool
  {
    match vehicles.whitelist(tags)
    case None => true
    case Some(wl) => !vehicles.anyCanTraverse(ProfilePart(tags, wl))
  }

  /** AddProfileAndMeta on the profile and meta dictionaries. */
  function ProfileAndMeta(profiles: seq<Tags>, metas: seq<Tags>, env: Env, tags: Tags): (r: (seq<Tags>, seq<Tags>, ProfileMeta))
    ensures r.2.Rejected? <==> RejectsTags(env.vehicles, tags)
    ensures r.2.Rejected? ==> r.0 == profiles && r.1 == metas
    ensures r.2.Overflow? <==>
      !RejectsTags(env.vehicles, tags) && Intern(profiles, ProfilePart(tags, env.vehicles.whitelist(tags).value)).1 > env.maxProfileCount
    ensures r.2.Overflow? ==> r.0 == Intern(profiles, ProfilePart(tags, env.vehicles.whitelist(tags).value)).0 && r.1 == metas
    ensures r.2.Ids? ==> r.2.profile <= env.maxProfileCount && r.2.profile < |r.0| && r.0[r.2.profile] == ProfilePart(tags, env.vehicles.whitelist(tags).value)
    ensures r.2.Ids? ==> r.2.meta < |r.1| && r.1[r.2.meta] == MetaPart(env.vehicles, tags, env.vehicles.whitelist(tags).value)
  {
    match env.vehicles.whitelist(tags)
    case None => (profiles, metas, Rejected)
    case Some(wl) =>
      var profileTags := ProfilePart(tags, wl);
      if !env.vehicles.anyCanTraverse(profileTags) then (profiles, metas, Rejected)
      else
        var (profiles', profile) := Intern(profiles, profileTags);
        if profile > env.maxProfileCount then (profiles', metas, Overflow)
        else
          var (metas', meta) := Intern(metas, MetaPart(env.vehicles, tags, wl));
          (profiles', metas', Ids(profile, meta))
  }

  /** Distance of an edge: the chained estimate from the first vertex through the shape to the second. */
  function EdgeDistance(env: Env, vertices: seq<Coordinate>, from: nat, to: nat, shape: seq<Coordinate>): nat
    requires from < |vertices| && to < |vertices|
  {
    ChainLength(env.estimate, [vertices[from]] + shape + [vertices[to]])
  }

  /** The vertex of a core node, created (handle VertexCount) and registered when the id is unmapped. */
  function EnsureVertex(st: WalkState, id: int64, location: Coordinate): (r: (WalkState, nat))
    requires Good(st)
    ensures Good(r.0) && id in r.0.ids && r.0.ids[id] == r.1
  {
    if id in st.ids then (st, st.ids[id])
    else
      var v := |st.vertices|;
      (st.(vertices := st.vertices + [location], ids := st.ids[id := v], updated := true), v)
  }

  /** AddEdge from `from` to `to` with the buffered shape, then shape.Clear(). */
  function EmitEdge(st: WalkState, env: Env, from: nat, to: nat, fromNode: int64, toNode: int64, pm: ProfileMeta): (r: WalkState)
    requires Good(st) && from < |st.vertices| && to < |st.vertices| && pm.Ids?
    ensures Good(r)
  {
    var edge := Edge(from, to, EdgeDistance(env, st.vertices, from, to, st.shape), pm.profile, pm.meta, st.shape);
    st.(edges := st.edges + [edge], trace := st.trace + [EdgeNodes(fromNode, toNode, st.shapeNodes)],
        updated := true, shape := [], shapeNodes := [])
  }

  /** previousVertex := NO_VERTEX, or the vertex when its node lies in the tile. */
  function Open(st: WalkState, id: int64, v: nat, inTile: bool): (r: WalkState)
    requires Good(st) && v < |st.vertices|
    ensures Good(r)
  {
    if inTile then st.(cursor := At(v), cursorNode := id) else st.(cursor := NoVertex)
  }

  /** A boundary-crossing segment makes both ends core. In the corrected walk a
      node1 that only now becomes core while a cursor is open was buffered as
      the last shape point of the previous segment: that point is removed, so
      that the edge about to end at node1 does not carry node1's own location. */
  function Promote(st: WalkState, id1: int64, id2: int64, fix: bool): (r: WalkState)
    requires Good(st)
    ensures Good(r)
  {
    var drop := fix && id1 !in st.core && st.cursor.At? && |st.shape| > 0;
    st.(core := st.core + {id1, id2},
        shape := if drop then st.shape[..|st.shape| - 1] else st.shape,
        shapeNodes := if drop && |st.shapeNodes| > 0 then st.shapeNodes[..|st.shapeNodes| - 1] else st.shapeNodes)
  }

  /** Node1 is core: make its vertex; unless the cursor already is that vertex,
      close the open edge (if any) there and reopen the cursor. */
  function Node1(st: WalkState, env: Env, id1: int64, d1: NodeInfo, pm: ProfileMeta): (r: WalkState)
    requires Good(st) && pm.Ids?
    ensures Good(r)
  {
    var (st1, v) := EnsureVertex(st, id1, d1.location);
    if st1.cursor == At(v) then st1
    else
      var st2 := if st1.cursor.At? then EmitEdge(st1, env, st1.cursor.vertex, v, st1.cursorNode, id1, pm) else st1;
      Open(st2, id1, v, d1.inTile)
  }

  /** Node2 is core: make its vertex; emit the boundary edge node1 -> node2, or
      close the open edge (if any) at node2; then reopen the cursor at node2. */
  function Node2(st: WalkState, env: Env, id1: int64, id2: int64, d2: NodeInfo, crossing: bool, pm: ProfileMeta): (r: (WalkState, Flow))
    requires Good(st) && pm.Ids?
    ensures Good(r.0)
  {
    var (st1, v) := EnsureVertex(st, id2, d2.location);
    if crossing then
      if id1 !in st1.ids then (st1, Abort(BoundaryVertexMissing))
      else (Open(EmitEdge(st1, env, st1.ids[id1], v, id1, id2, pm), id2, v, d2.inTile), Next)
    else
      var st2 := if st1.cursor.At? then EmitEdge(st1, env, st1.cursor.vertex, v, st1.cursorNode, id2, pm) else st1;
      (Open(st2, id2, v, d2.inTile), Next)
  }

  /** Node2 is not core: it becomes a shape point if a cursor is open. */
  function AppendShape(st: WalkState, id2: int64, location: Coordinate): (r: WalkState)
  {
    if st.cursor.At? then st.(shape := st.shape + [location], shapeNodes := st.shapeNodes + [id2]) else st
  }

  /** One iteration of the segment loop, for the segment from way[n] to way[n + 1]. */
  function Segment(st: WalkState, env: Env, nodes: map<int64, NodeInfo>, way: seq<int64>, tags: Tags, n: nat, fix: bool): (r: (WalkState, Flow))
    requires Good(st) && n + 1 < |way|
    ensures Good(r.0)
  {
    var id1, id2 := way[n], way[n + 1];
    if id1 !in nodes || id2 !in nodes then (st, Break)
    else
      var (profiles, metas, pm) := ProfileAndMeta(st.profiles, st.metas, env, tags);
      var st1 := st.(profiles := profiles, metas := metas);
      if pm.Overflow? then (st1, Abort(ProfileOverflow))
      else if pm.Rejected? then (st1, Next)
      else NodeSteps(st1, env, id1, nodes[id1], id2, nodes[id2], pm, fix)
  }

  /** The node steps of a segment whose tags were accepted: promotion of a
      boundary-crossing segment, then node1, then node2. */
  function NodeSteps(st: WalkState, env: Env, id1: int64, d1: NodeInfo, id2: int64, d2: NodeInfo, pm: ProfileMeta, fix: bool): (r: (WalkState, Flow))
    requires Good(st) && pm.Ids?
    ensures Good(r.0)
  {
    var crossing := !d1.inTile || !d2.inTile;
    var st3 := HeadStep(st, env, id1, d1, id2, crossing, pm, fix);
    if id2 in st3.core then Node2(st3, env, id1, id2, d2, crossing, pm)
    else (AppendShape(st3, id2, d2.location), Next)
  }

  /** Promotion of a boundary-crossing segment, then the node1 step when node1 is core. */
  function HeadStep(st: WalkState, env: Env, id1: int64, d1: NodeInfo, id2: int64, crossing: bool, pm: ProfileMeta, fix: bool): (r: WalkState)
    requires Good(st) && pm.Ids?
    ensures Good(r)
  {
    var st2 := if crossing then Promote(st, id1, id2, fix) else st;
    if id1 in st2.core then Node1(st2, env, id1, d1, pm) else st2
  }

  /** The first n segments of a way; a Break or an Abort stops the loop. */
  function Segments(st: WalkState, env: Env, nodes: map<int64, NodeInfo>, way: seq<int64>, tags: Tags, n: nat, fix: bool): (r: (WalkState, Flow))
    requires Good(st) && n < |way|
    ensures Good(r.0)
  {
    if n == 0 then (st, Next)
    else
      var (st1, flow) := Segments(st, env, nodes, way, tags, n - 1, fix);
      if flow != Next then (st1, flow) else Segment(st1, env, nodes, way, tags, n - 1, fix)
  }

  /** Once the loop has stopped (a missing node or an exception), later segments change nothing. */
  lemma {:induction false} SegmentsStopped(st: WalkState, env: Env, nodes: map<int64, NodeInfo>, way: seq<int64>, tags: Tags, m: nat, n: nat, fix: bool)
    requires Good(st) && m <= n < |way| && Segments(st, env, nodes, way, tags, m, fix).1 != Next
    ensures Segments(st, env, nodes, way, tags, n, fix) == Segments(st, env, nodes, way, tags, m, fix)
  {
    var stop := Segments(st, env, nodes, way, tags, m, fix);
    var i := m;
    while i < n
      invariant m <= i <= n
      invariant Segments(st, env, nodes, way, tags, i, fix) == stop
    {
      i := i + 1;
    }
  }

  /** While the loop goes on, one more segment is one more call of Segment. */
  lemma SegmentsNext(st: WalkState, env: Env, nodes: map<int64, NodeInfo>, way: seq<int64>, tags: Tags, n: nat, fix: bool)
    requires Good(st) && n + 1 < |way| && Segments(st, env, nodes, way, tags, n, fix).1 == Next
    ensures Segments(st, env, nodes, way, tags, n + 1, fix) == Segment(Segments(st, env, nodes, way, tags, n, fix).0, env, nodes, way, tags, n, fix)
  {
  }

  /** One way: shape.Clear(), previousVertex := NO_VERTEX, skip a way of at
      most one node, then walk its segments. A Break ends only this way. */
  function WalkWay(st: WalkState, env: Env, nodes: map<int64, NodeInfo>, way: WayData, fix: bool): (r: (WalkState, Flow))
    requires Good(st)
    ensures Good(r.0) && !r.1.Break?
  {
    var st1 := st.(shape := [], shapeNodes := [], cursor := NoVertex);
    if |way.nodes| <= 1 then (st1, Next)
    else
      var (st2, flow) := Segments(st1, env, nodes, way.nodes, way.tags, |way.nodes| - 1, fix);
      (st2, if flow.Abort? then flow else Next)
  }

  /** A way's loop that has run out of segments, or stopped early, has walked
      the way: `start` is the state with the shape and the cursor reset, `r` what
      the loop reached after n segments. */
  lemma WalkWayFinish(st: WalkState, start: WalkState, env: Env, nodes: map<int64, NodeInfo>, way: WayData, n: nat, fix: bool,
                      r: (WalkState, Flow))
    requires Good(st) && start == st.(shape := [], shapeNodes := [], cursor := NoVertex)
    requires 1 < |way.nodes| && n < |way.nodes|
    requires r == Segments(start, env, nodes, way.nodes, way.tags, n, fix)
    requires r.1 != Next || n == |way.nodes| - 1
    ensures WalkWay(st, env, nodes, way, fix) == (r.0, if r.1.Abort? then r.1 else Next)
  {
    var last := Segments(start, env, nodes, way.nodes, way.tags, |way.nodes| - 1, fix);
    WalkWayUnfold(st, start, env, nodes, way, fix);
    if n < |way.nodes| - 1 {
      SegmentsStopped(start, env, nodes, way.nodes, way.tags, n, |way.nodes| - 1, fix);
    }
    assert last == r;
  }

  /** A way of two nodes or more is walked by all its segments. */
  lemma WalkWayUnfold(st: WalkState, start: WalkState, env: Env, nodes: map<int64, NodeInfo>, way: WayData, fix: bool)
    requires Good(st) && start == st.(shape := [], shapeNodes := [], cursor := NoVertex) && 1 < |way.nodes|
    ensures var last := Segments(start, env, nodes, way.nodes, way.tags, |way.nodes| - 1, fix);
      WalkWay(st, env, nodes, way, fix) == (last.0, if last.1.Abort? then last.1 else Next)
  {
  }

  /** The ways of the tile in the order the way table is enumerated. */
  function WalkWays(st: WalkState, env: Env, nodes: map<int64, NodeInfo>, ways: map<int64, WayData>, order: seq<int64>, fix: bool): (r: (WalkState, Flow))
    requires Good(st) && forall i :: 0 <= i < |order| ==> order[i] in ways
    ensures Good(r.0) && !r.1.Break?
  {
    if order == [] then (st, Next)
    else
      var (st1, flow) := WalkWays(st, env, nodes, ways, order[..|order| - 1], fix);
      if flow.Abort? then (st1, flow) else WalkWay(st1, env, nodes, ways[order[|order| - 1]], fix)
  }

  /** The walk's starting state for a store, a global-id map and a core set. */
  function Start(vertices: seq<Coordinate>, edges: seq<Edge>, profiles: seq<Tags>, metas: seq<Tags>,
                 ids: map<int64, nat>, core: set<int64>): WalkState
  {
    WalkState(vertices, edges, profiles, metas, ids, core, [], NoVertex, false, [], 0, [])
  }
}
