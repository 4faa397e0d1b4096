/** The cursor discipline of the TileParser3 walk, for the walk as written and
    for the corrected one alike: the global-id map stays injective and points
    into the store, the open vertex (previousVertex) is always the vertex of a
    core node that lies inside the tile, and no shape point is ever buffered
    while no vertex is open. None of the cursor updates depends on the one
    place where the two walks differ, the promotion of a boundary-crossing
    segment, which only shortens the buffer. */
module WalkCursor {
  import opened Base
  import opened DecodedTile
  import opened GlobalIds
  import opened WalkSpec
  import opened WalkGrowth

  /** The map is injective and points into the store; an open cursor sits on
      the vertex of a core node inside the tile; without a cursor the buffer is empty. */
  ghost predicate Disciplined(st: WalkState, nodes: map<int64, NodeInfo>)
  {
    && Good(st) && Injective(st.ids)
    && (st.cursor.At? ==>
          st.cursorNode in st.core && st.cursorNode in st.ids && st.ids[st.cursorNode] == st.cursor.vertex &&
          st.cursorNode in nodes && nodes[st.cursorNode].inTile)
    && (st.cursor.NoVertex? ==> st.shapeNodes == [])
  }

  /** Creating a vertex keeps the discipline, the cursor, the buffer and every mapping. */
  lemma EnsureVertexDisciplined(st: WalkState, id: int64, location: Coordinate, nodes: map<int64, NodeInfo>)
    requires Disciplined(st, nodes)
    ensures var r := EnsureVertex(st, id, location).0;
      Disciplined(r, nodes) && r.core == st.core && r.cursor == st.cursor && r.cursorNode == st.cursorNode &&
      r.shapeNodes == st.shapeNodes && (forall k :: k in st.ids ==> k in r.ids && r.ids[k] == st.ids[k])
  {
  }

  /** The node1 step of a core node1. */
  lemma Node1Disciplined(st: WalkState, env: Env, id1: int64, pm: ProfileMeta, nodes: map<int64, NodeInfo>)
    requires Disciplined(st, nodes) && pm.Ids? && id1 in st.core && id1 in nodes
    ensures var r := Node1(st, env, id1, nodes[id1], pm);
      Disciplined(r, nodes) && r.core == st.core
  {
    EnsureVertexDisciplined(st, id1, nodes[id1].location, nodes);
  }

  /** The node2 step of a core node2, crossing or not. */
  lemma Node2Disciplined(st: WalkState, env: Env, id1: int64, id2: int64, crossing: bool, pm: ProfileMeta, nodes: map<int64, NodeInfo>)
    requires Disciplined(st, nodes) && pm.Ids? && id2 in st.core && id2 in nodes
    ensures var r := Node2(st, env, id1, id2, nodes[id2], crossing, pm).0;
      Disciplined(r, nodes) && r.core == st.core
  {
    EnsureVertexDisciplined(st, id2, nodes[id2].location, nodes);
  }

  /** Promotion, node1, then node2 or the buffering of node2, in either walk. */
  lemma NodeStepsDisciplined(st: WalkState, env: Env, id1: int64, id2: int64, pm: ProfileMeta, nodes: map<int64, NodeInfo>, fix: bool)
    requires Disciplined(st, nodes) && pm.Ids? && id1 in nodes && id2 in nodes
    ensures var r := NodeSteps(st, env, id1, nodes[id1], id2, nodes[id2], pm, fix).0;
      Disciplined(r, nodes) && st.core <= r.core
  {
    var crossing := !nodes[id1].inTile || !nodes[id2].inTile;
    var st2 := if crossing then Promote(st, id1, id2, fix) else st;
    if id1 in st2.core {
      Node1Disciplined(st2, env, id1, pm, nodes);
    }
    var st3 := HeadStep(st, env, id1, nodes[id1], id2, crossing, pm, fix);
    if id2 in st3.core {
      Node2Disciplined(st3, env, id1, id2, crossing, pm, nodes);
    }
  }

  /** One segment keeps the discipline and never removes a core node, whichever walk runs. */
  lemma SegmentDisciplined(st: WalkState, env: Env, nodes: map<int64, NodeInfo>, way: seq<int64>, tags: Tags, n: nat, fix: bool)
    requires Disciplined(st, nodes) && n + 1 < |way|
    ensures var r := Segment(st, env, nodes, way, tags, n, fix).0;
      Disciplined(r, nodes) && st.core <= r.core
  {
    var id1, id2 := way[n], way[n + 1];
    if id1 in nodes && id2 in nodes {
      var (profiles, metas, pm) := ProfileAndMeta(st.profiles, st.metas, env, tags);
      if pm.Ids? {
        NodeStepsDisciplined(st.(profiles := profiles, metas := metas), env, id1, id2, pm, nodes, fix);
      }
    }
  }

  /** The segment loop of one way. */
  lemma SegmentsDisciplined(st: WalkState, env: Env, nodes: map<int64, NodeInfo>, way: seq<int64>, tags: Tags, n: nat, fix: bool)
    requires Disciplined(st, nodes) && n < |way|
    ensures var r := Segments(st, env, nodes, way, tags, n, fix).0;
      Disciplined(r, nodes) && st.core <= r.core
  {
    var P := (s: WalkState, f: Flow, i: nat) => Disciplined(s, nodes) && st.core <= s.core;
    forall s: WalkState, i: nat {:trigger Segment(s, env, nodes, way, tags, i, fix)} | Good(s) && i + 1 < |way| && P(s, Next, i)
      ensures P(Segment(s, env, nodes, way, tags, i, fix).0, Segment(s, env, nodes, way, tags, i, fix).1, i + 1)
    {
      SegmentDisciplined(s, env, nodes, way, tags, i, fix);
    }
    SegmentsInduction(P, st, env, nodes, way, tags, n, fix);
  }

  /** One way: the reset closes the cursor and empties the buffer, then the segments keep the discipline. */
  lemma WalkWayDisciplined(st: WalkState, env: Env, nodes: map<int64, NodeInfo>, way: WayData, fix: bool)
    requires Good(st) && Injective(st.ids)
    ensures var r := WalkWay(st, env, nodes, way, fix).0;
      Disciplined(r, nodes) && st.core <= r.core
  {
    var st1 := st.(shape := [], shapeNodes := [], cursor := NoVertex);
    if |way.nodes| > 1 {
      SegmentsDisciplined(st1, env, nodes, way.nodes, way.tags, |way.nodes| - 1, fix);
    }
  }

  /** The ways of a tile in enumeration order, until an abort. */
  lemma {:induction false} WalkWaysDisciplined(st: WalkState, env: Env, nodes: map<int64, NodeInfo>, ways: map<int64, WayData>,
                                               order: seq<int64>, fix: bool)
    requires Disciplined(st, nodes) && forall i :: 0 <= i < |order| ==> order[i] in ways
    ensures var r := WalkWays(st, env, nodes, ways, order, fix).0;
      Disciplined(r, nodes) && st.core <= r.core
  {
    if order != [] {
      var front := order[..|order| - 1];
      WalkWaysDisciplined(st, env, nodes, ways, front, fix);
      var (st1, flow) := WalkWays(st, env, nodes, ways, front, fix);
      if !flow.Abort? {
        WalkWayDisciplined(st1, env, nodes, ways[order[|order| - 1]], fix);
      }
    }
  }

  /** The walk of a decoded tile, as written or corrected, from an injective
      map into the store: it ends with the map injective and pointing into the
      store, any open cursor on the vertex of a core node inside the tile, and
      no buffered shape point without a cursor. */
  lemma TileCursorDiscipline(vertices: seq<Coordinate>, edges: seq<Edge>, profiles: seq<Tags>, metas: seq<Tags>,
                             ids: map<int64, nat>, env: Env, graph: seq<GraphObject>, order: seq<int64>, fix: bool)
    requires Injective(ids) && forall k :: k in ids ==> ids[k] < |vertices|
    requires forall i :: 0 <= i < |order| ==> order[i] in WayTable(graph)
    ensures var r := WalkWays(Start(vertices, edges, profiles, metas, ids, CoreNodes(graph)), env, NodeTable(graph), WayTable(graph), order, fix).0;
      Disciplined(r, NodeTable(graph)) && CoreNodes(graph) <= r.core
  {
    WalkWaysDisciplined(Start(vertices, edges, profiles, metas, ids, CoreNodes(graph)), env, NodeTable(graph), WayTable(graph), order, fix);
  }
}
