/** Further properties of the TileParser3 walk: what a missing node, a
    rejected way and a boundary-crossing segment do, the boundary exception
    that cannot be raised, the interning that repeats harmlessly on every
    segment, the store growth seen from the whole tile, and the edge whose
    shape repeats its own end point in the walk as written. */
module WalkProperties {
  import opened Base
  import opened Store
  import opened TagClassifier
  import opened DecodedTile
  import opened GlobalIds
  import opened WalkSpec
  import opened WalkGrowth
  import opened WalkShapes

  /** A segment with a node missing from the tile breaks out of the way's
      loop and leaves the state as it was: no interning, no vertex, no edge. */
  lemma {:induction false} MissingNodeBreaks(st: WalkState, env: Env, nodes: map<int64, NodeInfo>, way: seq<int64>, tags: Tags, m: nat, fix: bool)
    requires Good(st) && m + 1 < |way| && (way[m] !in nodes || way[m + 1] !in nodes)
    ensures Segment(st, env, nodes, way, tags, m, fix) == (st, Break)
  {
  }

  /** A way of at most one node, or one whose tags the vehicles reject, adds
      nothing: no vertex, no edge, no id, no core node, no dictionary entry;
      only the per-way reset happens. */
  lemma {:induction false} RejectedWayIsSkipped(st: WalkState, env: Env, nodes: map<int64, NodeInfo>, way: WayData, fix: bool)
    requires Good(st) && (|way.nodes| <= 1 || RejectsTags(env.vehicles, way.tags))
    ensures WalkWay(st, env, nodes, way, fix) == (st.(shape := [], shapeNodes := [], cursor := NoVertex), Next)
  {
    var st1 := st.(shape := [], shapeNodes := [], cursor := NoVertex);
    if |way.nodes| > 1 {
      var P := (s: WalkState, f: Flow, i: nat) => s == st1 && !f.Abort?;
      forall s: WalkState, i: nat {:trigger Segment(s, env, nodes, way.nodes, way.tags, i, fix)}
        | Good(s) && i + 1 < |way.nodes| && P(s, Next, i)
        ensures P(Segment(s, env, nodes, way.nodes, way.tags, i, fix).0, Segment(s, env, nodes, way.nodes, way.tags, i, fix).1, i + 1)
      {
        var r := Segment(s, env, nodes, way.nodes, way.tags, i, fix);
        assert r.0 == s && !r.1.Abort?;
      }
      SegmentsInduction(P, st1, env, nodes, way.nodes, way.tags, |way.nodes| - 1, fix);
      var r := Segments(st1, env, nodes, way.nodes, way.tags, |way.nodes| - 1, fix);
      assert P(r.0, r.1, |way.nodes| - 1);
    }
  }

  /** The boundary step never finds node1 unmapped: a crossing segment makes
      node1 core first, and the node1 step maps every core node1. */
  lemma {:induction false} SegmentNeverMissesBoundaryVertex(st: WalkState, env: Env, nodes: map<int64, NodeInfo>, way: seq<int64>, tags: Tags, n: nat, fix: bool)
    requires Good(st) && n + 1 < |way|
    ensures Segment(st, env, nodes, way, tags, n, fix).1 != Abort(BoundaryVertexMissing)
  {
    var id1, id2 := way[n], way[n + 1];
    if id1 in nodes && id2 in nodes {
      var (profiles, metas, pm) := ProfileAndMeta(st.profiles, st.metas, env, tags);
      var st1 := st.(profiles := profiles, metas := metas);
      if pm.Ids? {
        var crossing := !nodes[id1].inTile || !nodes[id2].inTile;
        var st3 := HeadStep(st1, env, id1, nodes[id1], id2, crossing, pm, fix);
        if crossing {
          HeadMapsNode1(st1, env, id1, nodes[id1], id2, pm, fix);
          assert id1 in EnsureVertex(st3, id2, nodes[id2].location).0.ids;
        }
      }
    }
  }

  /** After the head step of a crossing segment, node1 is mapped and core. */
  lemma HeadMapsNode1(st: WalkState, env: Env, id1: int64, d1: NodeInfo, id2: int64, pm: ProfileMeta, fix: bool)
    requires Good(st) && pm.Ids?
    ensures var r := HeadStep(st, env, id1, d1, id2, true, pm, fix);
      id1 in r.ids && id1 in r.core && id2 in r.core
  {
  }

  /** No way of a tile ends the walk with the boundary exception. */
  lemma {:induction false} WalkNeverMissesBoundaryVertex(st: WalkState, env: Env, nodes: map<int64, NodeInfo>, ways: map<int64, WayData>, order: seq<int64>, fix: bool)
    requires Good(st) && forall i :: 0 <= i < |order| ==> order[i] in ways
    ensures WalkWays(st, env, nodes, ways, order, fix).1 != Abort(BoundaryVertexMissing)
  {
    if order != [] {
      var front := order[..|order| - 1];
      WalkNeverMissesBoundaryVertex(st, env, nodes, ways, front, fix);
      var (st1, flow) := WalkWays(st, env, nodes, ways, front, fix);
      if !flow.Abort? {
        var way := ways[order[|order| - 1]];
        var s0 := st1.(shape := [], shapeNodes := [], cursor := NoVertex);
        if |way.nodes| > 1 {
          var P := (s: WalkState, f: Flow, i: nat) => f != Abort(BoundaryVertexMissing);
          forall s: WalkState, i: nat {:trigger Segment(s, env, nodes, way.nodes, way.tags, i, fix)}
            | Good(s) && i + 1 < |way.nodes| && P(s, Next, i)
            ensures P(Segment(s, env, nodes, way.nodes, way.tags, i, fix).0, Segment(s, env, nodes, way.nodes, way.tags, i, fix).1, i + 1)
          {
            SegmentNeverMissesBoundaryVertex(s, env, nodes, way.nodes, way.tags, i, fix);
          }
          SegmentsInduction(P, s0, env, nodes, way.nodes, way.tags, |way.nodes| - 1, fix);
        }
      }
    }
  }

  /** The node2 step of a crossing segment whose node1 is mapped. */
  lemma Node2Crossing(st: WalkState, env: Env, id1: int64, id2: int64, d2: NodeInfo, pm: ProfileMeta)
    requires Good(st) && pm.Ids? && id1 in st.ids
    ensures var (r, f) := Node2(st, env, id1, id2, d2, true, pm);
      f == Next && r.core == st.core && id1 in r.ids && id2 in r.ids &&
      |r.edges| > |st.edges| &&
      r.edges[|r.edges| - 1].from == r.ids[id1] && r.edges[|r.edges| - 1].to == r.ids[id2] &&
      r.shape == [] && r.cursor == (if d2.inTile then At(r.ids[id2]) else NoVertex)
  {
    assert EnsureVertex(st, id2, d2.location).0.ids[id1] == st.ids[id1];
  }

  /** What a boundary-crossing segment from id1 to id2 leaves behind, from a
      store of `base` edges: the loop goes on, both nodes are core and mapped,
      the last edge runs from id1's vertex to id2's, no shape is pending, and
      the cursor sits on id2's vertex exactly when id2 lies in the tile. */
  ghost predicate CrossingOutcome(r: (WalkState, Flow), base: nat, id1: int64, id2: int64, inTile2: bool)
  {
    var (st, f) := r;
    f == Next && id1 in st.core && id2 in st.core && id1 in st.ids && id2 in st.ids &&
    |st.edges| > base &&
    st.edges[|st.edges| - 1].from == st.ids[id1] && st.edges[|st.edges| - 1].to == st.ids[id2] &&
    st.shape == [] && st.cursor == (if inTile2 then At(st.ids[id2]) else NoVertex)
  }

  /** The node steps of an accepted segment that crosses the tile boundary. */
  lemma CrossingNodeSteps(st: WalkState, env: Env, id1: int64, d1: NodeInfo, id2: int64, d2: NodeInfo, pm: ProfileMeta, fix: bool)
    requires Good(st) && pm.Ids? && (!d1.inTile || !d2.inTile)
    ensures CrossingOutcome(NodeSteps(st, env, id1, d1, id2, d2, pm, fix), |st.edges|, id1, id2, d2.inTile)
  {
    var st3 := HeadStep(st, env, id1, d1, id2, true, pm, fix);
    HeadMapsNode1(st, env, id1, d1, id2, pm, fix);
    assert |st3.edges| >= |st.edges|;
    Node2Crossing(st3, env, id1, id2, d2, pm);
  }

  /** An accepted segment that crosses the tile boundary always ends with the
      edge from node1's vertex to node2's vertex, with both nodes core; the
      cursor then sits on node2 when node2 lies in the tile, and no shape is pending. */
  lemma {:induction false} CrossingSegmentAddsEdge(st: WalkState, env: Env, nodes: map<int64, NodeInfo>, way: seq<int64>, tags: Tags, n: nat, fix: bool)
    requires Good(st) && n + 1 < |way| && way[n] in nodes && way[n + 1] in nodes
    requires !nodes[way[n]].inTile || !nodes[way[n + 1]].inTile
    requires ProfileAndMeta(st.profiles, st.metas, env, tags).2.Ids?
    ensures CrossingOutcome(Segment(st, env, nodes, way, tags, n, fix), |st.edges|, way[n], way[n + 1], nodes[way[n + 1]].inTile)
  {
    var (profiles, metas, pm) := ProfileAndMeta(st.profiles, st.metas, env, tags);
    var st1 := st.(profiles := profiles, metas := metas);
    assert Segment(st, env, nodes, way, tags, n, fix) == NodeSteps(st1, env, way[n], nodes[way[n]], way[n + 1], nodes[way[n + 1]], pm, fix);
    CrossingNodeSteps(st1, env, way[n], nodes[way[n]], way[n + 1], nodes[way[n + 1]], pm, fix);
  }

  /** Once the walk of a tile is aborted, the ways after it change nothing. */
  lemma {:induction false} AbortedWalkStays(st: WalkState, env: Env, nodes: map<int64, NodeInfo>, ways: map<int64, WayData>,
                                            order: seq<int64>, k: nat, fix: bool)
    requires Good(st) && (forall i :: 0 <= i < |order| ==> order[i] in ways) && k <= |order|
    requires WalkWays(st, env, nodes, ways, order[..k], fix).1.Abort?
    ensures WalkWays(st, env, nodes, ways, order, fix) == WalkWays(st, env, nodes, ways, order[..k], fix)
    decreases |order| - k
  {
    if k < |order| {
      var front := order[..|order| - 1];
      assert front[..k] == order[..k];
      AbortedWalkStays(st, env, nodes, ways, front, k, fix);
    } else {
      assert order[..k] == order;
    }
  }

  /** The profile limit aborts the tile: when the way walked after order[..k]
      begins with a segment whose nodes are both in the tile and whose tags
      overflow the profile count, the walk ends right there in the profile
      exception. Only the profile dictionary and the per-way reset have
      changed, so `updated` is what the earlier ways left. */
  lemma {:induction false} OverflowAbortsTile(st: WalkState, env: Env, nodes: map<int64, NodeInfo>, ways: map<int64, WayData>,
                                              order: seq<int64>, k: nat, fix: bool)
    requires Good(st) && (forall i :: 0 <= i < |order| ==> order[i] in ways) && k < |order|
    requires WalkWays(st, env, nodes, ways, order[..k], fix).1 == Next
    requires |ways[order[k]].nodes| >= 2 && ways[order[k]].nodes[0] in nodes && ways[order[k]].nodes[1] in nodes
    requires var s := WalkWays(st, env, nodes, ways, order[..k], fix).0;
      ProfileAndMeta(s.profiles, s.metas, env, ways[order[k]].tags).2.Overflow?
    ensures var s := WalkWays(st, env, nodes, ways, order[..k], fix).0;
      WalkWays(st, env, nodes, ways, order, fix) ==
        (s.(profiles := ProfileAndMeta(s.profiles, s.metas, env, ways[order[k]].tags).0, shape := [], shapeNodes := [], cursor := NoVertex),
         Abort(ProfileOverflow))
  {
    var s := WalkWays(st, env, nodes, ways, order[..k], fix).0;
    var way := ways[order[k]];
    var start := s.(shape := [], shapeNodes := [], cursor := NoVertex);
    var aborted := (start.(profiles := ProfileAndMeta(s.profiles, s.metas, env, way.tags).0), Abort(ProfileOverflow));
    assert Segments(start, env, nodes, way.nodes, way.tags, 1, fix) == aborted;
    SegmentsStopped(start, env, nodes, way.nodes, way.tags, 1, |way.nodes| - 1, fix);
    WalkWayUnfold(s, start, env, nodes, way, fix);
    assert order[..k + 1][..k] == order[..k];
    assert WalkWays(st, env, nodes, ways, order[..k + 1], fix) == aborted;
    AbortedWalkStays(st, env, nodes, ways, order, k + 1, fix);
  }

  /** AddProfileAndMeta runs on every accepted segment of a way; from the
      second call on it returns the same ids and leaves both dictionaries as they are. */
  lemma ProfileAndMetaIdempotent(profiles: seq<Tags>, metas: seq<Tags>, env: Env, tags: Tags)
    ensures var (p1, m1, r1) := ProfileAndMeta(profiles, metas, env, tags);
      r1.Ids? ==> ProfileAndMeta(p1, m1, env, tags) == (p1, m1, r1)
  {
    if env.vehicles.whitelist(tags).Some? {
      var wl := env.vehicles.whitelist(tags).value;
      InternIdempotent(profiles, ProfilePart(tags, wl));
      InternIdempotent(metas, MetaPart(env.vehicles, tags, wl));
    }
  }

  /** The whole walk of a tile, as written or corrected: the global-id map
      stays injective and keeps every id it had, each new id is a node of the
      tile with a fresh vertex at its location, the store is only appended to,
      and the returned `updated` is true exactly when a vertex or an edge was added. */
  lemma {:induction false} TileWalkGrows(vertices: seq<Coordinate>, edges: seq<Edge>, profiles: seq<Tags>, metas: seq<Tags>,
                      ids: map<int64, nat>, env: Env, graph: seq<GraphObject>, order: seq<int64>, fix: bool)
    requires Injective(ids) && forall k :: k in ids ==> ids[k] < |vertices|
    requires forall i :: 0 <= i < |order| ==> order[i] in WayTable(graph)
    ensures var r := WalkWays(Start(vertices, edges, profiles, metas, ids, CoreNodes(graph)), env, NodeTable(graph), WayTable(graph), order, fix).0;
      && Injective(r.ids)
      && (forall k :: k in ids ==> k in r.ids && r.ids[k] == ids[k])
      && (forall k :: k in r.ids && k !in ids ==>
            k in NodeTable(graph) && |vertices| <= r.ids[k] < |r.vertices| && r.vertices[r.ids[k]] == NodeTable(graph)[k].location)
      && |vertices| <= |r.vertices| && r.vertices[..|vertices|] == vertices
      && |edges| <= |r.edges| && r.edges[..|edges|] == edges
      && (r.updated <==> |r.vertices| > |vertices| || |r.edges| > |edges|)
  {
    var st := Start(vertices, edges, profiles, metas, ids, CoreNodes(graph));
    WalkWaysGrow(st, env, NodeTable(graph), WayTable(graph), order, fix);
    GrowsKeepsInjective(st, WalkWays(st, env, NodeTable(graph), WayTable(graph), order, fix).0, NodeTable(graph));
  }

  /** The smallest tile that shows the shape defect: a way a -> s -> t with a
      and s inside the tile and t outside. Only a and t are way ends, so s is
      buffered as a shape point of the edge starting at a; the boundary
      segment s -> t then makes s core and closes that edge at s. */
  function DefectTile(): seq<GraphObject>
  {
    [NodeObject(1, Coordinate(0, 0), true),
     NodeObject(2, Coordinate(0, 1), true),
     NodeObject(3, Coordinate(0, 2), false),
     WayObject(10, [1, 2, 3], map[])]
  }

  function DefectNodes(): map<int64, NodeInfo>
  {
    map[1 := NodeInfo(Coordinate(0, 0), true), 2 := NodeInfo(Coordinate(0, 1), true), 3 := NodeInfo(Coordinate(0, 2), false)]
  }

  /** Vehicles that accept every way with an empty profile, and a unit distance estimate. */
  function AcceptAll(): Env
  {
    Env(Vehicles(_ => Some({}), _ => false, _ => false, _ => true), (_, _) => 1, 0)
  }

  /** The tables and the core set read from the defect tile. */
  lemma DefectTables()
    ensures NodeTable(DefectTile()) == DefectNodes()
    ensures WayTable(DefectTile()) == map[10 := WayData([1, 2, 3], map[])]
    ensures CoreNodes(DefectTile()) == {1, 3}
  {
    var g := DefectTile();
    var g1 := [g[0]];
    var g2 := [g[0], g[1]];
    var g3 := [g[0], g[1], g[2]];
    assert g1[..0] == [] && g2[..1] == g1 && g3[..2] == g2 && g[..3] == g3;
    assert NodeTable(g1) == map[1 := NodeInfo(Coordinate(0, 0), true)];
    assert NodeTable(g2) == map[1 := NodeInfo(Coordinate(0, 0), true), 2 := NodeInfo(Coordinate(0, 1), true)];
    assert NodeTable(g3) == DefectNodes();
    assert WayTable(g1) == map[];
    assert WayTable(g2) == map[];
    assert WayTable(g3) == map[];
    DefectCore();
  }

  /** The way ends are the only core nodes of the defect tile. */
  lemma DefectCore()
    ensures CoreNodes(DefectTile()) == {1, 3}
  {
    var g := DefectTile();
    var g1 := [g[0]];
    var g2 := [g[0], g[1]];
    var g3 := [g[0], g[1], g[2]];
    assert g1[..0] == [] && g2[..1] == g1 && g3[..2] == g2 && g[..3] == g3;
    assert Refs(g1) == [];
    assert Refs(g2) == [];
    assert Refs(g3) == [];
    var refs := [Ref(1, true), Ref(2, false), Ref(3, true)];
    assert WayRefs([1, 2, 3]) == refs;
    assert Refs(g) == refs;
    var r1 := [refs[0]];
    var r2 := [refs[0], refs[1]];
    assert r1[..0] == [] && r2[..1] == r1 && refs[..2] == r2;
    assert Pass(r1) == Seen({1}, {1});
    assert Pass(r2) == Seen({1, 2}, {1});
  }

  /** Both segments intern the same (empty) profile and meta. */
  lemma DefectProfile()
    ensures ProfileAndMeta([], [], AcceptAll(), map[]) == ([map[]], [map[]], Ids(0, 0))
    ensures ProfileAndMeta([map[]], [map[]], AcceptAll(), map[]) == ([map[]], [map[]], Ids(0, 0))
  {
    var e: Tags := map[];
    var env := AcceptAll();
    assert env.vehicles.whitelist(e) == Some({});
    assert ProfilePart(e, {}) == e;
    assert env.vehicles.anyCanTraverse(e);
    assert MetaPart(env.vehicles, e, {}) == e;
    var empty: seq<Tags> := [];
    assert empty + [e] == [e];
    assert Intern(empty, e) == ([e], 0);
    assert IndexOf([e], e) == 0;
    assert Intern([e], e) == ([e], 0);
  }

  /** After the segment a -> s: a has vertex 0 and is the open cursor, s is buffered. */
  function DefectAfterFirst(): WalkState
  {
    WalkState([Coordinate(0, 0)], [], [map[]], [map[]], map[1 := 0], {1, 3},
              [Coordinate(0, 1)], At(0), true, [2], 1, [])
  }

  /** After the segment s -> t: the edges a -> s and s -> t, and no cursor (t is outside). */
  function DefectAfterSecond(fix: bool): WalkState
  {
    var shape := DefectShape(fix);
    WalkState([Coordinate(0, 0), Coordinate(0, 1), Coordinate(0, 2)],
              [Edge(0, 1, if fix then 1 else 2, 0, 0, shape), Edge(1, 2, 1, 0, 0, [])],
              [map[]], [map[]], map[1 := 0, 2 := 1, 3 := 2], {1, 2, 3},
              [], NoVertex, true, [], 2,
              [EdgeNodes(1, 2, if fix then [] else [2]), EdgeNodes(2, 3, [])])
  }

  lemma DefectFirstSegment(fix: bool)
    ensures Segment(Start([], [], [], [], map[], {1, 3}), AcceptAll(), DefectNodes(), [1, 2, 3], map[], 0, fix) == (DefectAfterFirst(), Next)
  {
    DefectProfile();
    var st1 := Start([], [], [], [], map[], {1, 3}).(profiles := [map[]], metas := [map[]]);
    DefectFirstSteps(fix);
    assert Segment(Start([], [], [], [], map[], {1, 3}), AcceptAll(), DefectNodes(), [1, 2, 3], map[], 0, fix)
        == NodeSteps(st1, AcceptAll(), 1, DefectNodes()[1], 2, DefectNodes()[2], Ids(0, 0), fix);
  }

  /** The node steps of the segment a -> s, once the empty profile is interned. */
  lemma DefectFirstSteps(fix: bool)
    ensures NodeSteps(Start([], [], [], [], map[], {1, 3}).(profiles := [map[]], metas := [map[]]), AcceptAll(),
                      1, DefectNodes()[1], 2, DefectNodes()[2], Ids(0, 0), fix) == (DefectAfterFirst(), Next)
  {
    var env := AcceptAll();
    var nodes := DefectNodes();
    var e: Tags := map[];
    var st1 := Start([], [], [], [], map[], {1, 3}).(profiles := [e], metas := [e]);
    var empty: seq<Coordinate> := [];
    assert empty + [Coordinate(0, 0)] == [Coordinate(0, 0)];
    var st2 := st1.(vertices := [Coordinate(0, 0)], ids := map[1 := 0], updated := true);
    assert EnsureVertex(st1, 1, Coordinate(0, 0)) == (st2, 0);
    var st3 := st2.(cursor := At(0), cursorNode := 1);
    assert Node1(st1, env, 1, nodes[1], Ids(0, 0)) == st3;
    assert HeadStep(st1, env, 1, nodes[1], 2, false, Ids(0, 0), fix) == st3;
    assert AppendShape(st3, 2, Coordinate(0, 1)) == DefectAfterFirst();
    assert NodeSteps(st1, env, 1, nodes[1], 2, nodes[2], Ids(0, 0), fix) == (DefectAfterFirst(), Next);
  }

  /** The shape buffered before the boundary segment, as written and corrected. */
  function DefectShape(fix: bool): seq<Coordinate>
  {
    if fix then [] else [Coordinate(0, 1)]
  }

  /** The state after the head step of the boundary segment s -> t: s is core,
      has vertex 1, closed the edge a -> s and holds the cursor. */
  function DefectAfterHead(fix: bool): WalkState
  {
    WalkState([Coordinate(0, 0), Coordinate(0, 1)],
              [Edge(0, 1, if fix then 1 else 2, 0, 0, DefectShape(fix))],
              [map[]], [map[]], map[1 := 0, 2 := 1], {1, 2, 3},
              [], At(1), true, [], 2,
              [EdgeNodes(1, 2, if fix then [] else [2])])
  }

  lemma DefectPromote(fix: bool)
    ensures Promote(DefectAfterFirst(), 2, 3, fix) ==
      DefectAfterFirst().(core := {1, 2, 3}, shape := DefectShape(fix), shapeNodes := if fix then [] else [2])
  {
  }

  lemma DefectHead(fix: bool)
    ensures HeadStep(DefectAfterFirst(), AcceptAll(), 2, DefectNodes()[2], 3, true, Ids(0, 0), fix) == DefectAfterHead(fix)
  {
    var env := AcceptAll();
    var a, s := Coordinate(0, 0), Coordinate(0, 1);
    var shape := DefectShape(fix);
    var shapeNodes := if fix then [] else [2];
    DefectPromote(fix);
    var st1 := DefectAfterFirst().(core := {1, 2, 3}, shape := shape, shapeNodes := shapeNodes);
    var st2 := st1.(vertices := [a, s], ids := map[1 := 0, 2 := 1], updated := true);
    assert [a] + [s] == [a, s];
    assert EnsureVertex(st1, 2, s) == (st2, 1);
    ChainOfTwo(env.estimate, a, s);
    ChainSnoc(env.estimate, [a, s], s);
    assert [a, s] + [s] == [a, s, s];
    assert [a] + shape + [s] == if fix then [a, s] else [a, s, s];
    var d1 := if fix then 1 else 2;
    assert EdgeDistance(env, [a, s], 0, 1, shape) == d1;
    var st3 := st2.(edges := [Edge(0, 1, d1, 0, 0, shape)], trace := [EdgeNodes(1, 2, shapeNodes)], shape := [], shapeNodes := []);
    assert EmitEdge(st2, env, 0, 1, 1, 2, Ids(0, 0)) == st3;
    assert Node1(st1, env, 2, DefectNodes()[2], Ids(0, 0)) == st3.(cursor := At(1), cursorNode := 2);
  }

  lemma DefectTail(fix: bool)
    ensures Node2(DefectAfterHead(fix), AcceptAll(), 2, 3, DefectNodes()[3], true, Ids(0, 0)) == (DefectAfterSecond(fix), Next)
  {
    var env := AcceptAll();
    var a, s, t := Coordinate(0, 0), Coordinate(0, 1), Coordinate(0, 2);
    var st4 := DefectAfterHead(fix);
    var st5 := st4.(vertices := [a, s, t], ids := map[1 := 0, 2 := 1, 3 := 2]);
    assert [a, s] + [t] == [a, s, t];
    assert EnsureVertex(st4, 3, t) == (st5, 2);
    ChainOfTwo(env.estimate, s, t);
    assert [s] + [] + [t] == [s, t];
    assert EdgeDistance(env, [a, s, t], 1, 2, []) == 1;
    var st6 := st5.(edges := st4.edges + [Edge(1, 2, 1, 0, 0, [])], trace := st4.trace + [EdgeNodes(2, 3, [])]);
    assert EmitEdge(st5, env, 1, 2, 2, 3, Ids(0, 0)) == st6;
    assert Open(st6, 3, 2, false) == DefectAfterSecond(fix);
  }

  lemma DefectSecondSegment(fix: bool)
    ensures Segment(DefectAfterFirst(), AcceptAll(), DefectNodes(), [1, 2, 3], map[], 1, fix) == (DefectAfterSecond(fix), Next)
  {
    DefectProfile();
    DefectHead(fix);
    DefectTail(fix);
    var nodes := DefectNodes();
    assert NodeSteps(DefectAfterFirst(), AcceptAll(), 2, nodes[2], 3, nodes[3], Ids(0, 0), fix) == (DefectAfterSecond(fix), Next);
  }

  /** The walk of the defect tile, from an empty store. */
  lemma DefectWalk(fix: bool)
    ensures WalkWays(Start([], [], [], [], map[], CoreNodes(DefectTile())), AcceptAll(), NodeTable(DefectTile()), WayTable(DefectTile()), [10], fix)
      == (DefectAfterSecond(fix), Next)
  {
    DefectTables();
    DefectFirstSegment(fix);
    DefectSecondSegment(fix);
    var st := Start([], [], [], [], map[], {1, 3});
    var way := [1, 2, 3];
    assert Segments(st, AcceptAll(), DefectNodes(), way, map[], 1, fix) == (DefectAfterFirst(), Next);
    assert Segments(st, AcceptAll(), DefectNodes(), way, map[], 2, fix) == (DefectAfterSecond(fix), Next);
    WalkWayUnfold(st, st, AcceptAll(), DefectNodes(), WayData(way, map[]), fix);
    assert [10][..0] == [];
  }

  /** In the walk as written, the first edge a -> s of the defect tile carries
      s's own location as its only shape point, and its distance counts the
      zero-length leg s -> s on top of a -> s: the edge is not exclusive. */
  lemma ShapeRepeatsEndAsWritten()
    ensures var r := WalkWays(Start([], [], [], [], map[], CoreNodes(DefectTile())), AcceptAll(), NodeTable(DefectTile()), WayTable(DefectTile()), [10], false).0;
      |r.trace| == 2 && r.trace[0] == EdgeNodes(1, 2, [2]) && !Exclusive(r.trace[0]) &&
      |r.edges| == 2 && |r.vertices| == 3 && r.edges[0].to == 1 && r.vertices[1] == Coordinate(0, 1) && r.edges[0].shape == [r.vertices[1]] &&
      r.edges[0].distance == 2
  {
    DefectWalk(false);
  }

  /** The corrected walk on the same tile: the edge a -> s has no shape point. */
  lemma ShapeRepeatsEndCorrected()
    ensures var r := WalkWays(Start([], [], [], [], map[], CoreNodes(DefectTile())), AcceptAll(), NodeTable(DefectTile()), WayTable(DefectTile()), [10], true).0;
      |r.trace| == 2 && r.trace[0] == EdgeNodes(1, 2, []) && Exclusive(r.trace[0]) &&
      |r.edges| == 2 && r.edges[0].shape == [] && r.edges[0].distance == 1
  {
    DefectWalk(true);
  }
}
