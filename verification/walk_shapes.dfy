/** The shape discipline of the corrected TileParser3 walk: every emitted edge
    is recorded against the node ids behind it, and no edge carries one of its
    own two end nodes among its shape points. The invariant kept from segment
    to segment:
      - the cursor discipline of WalkCursor, which holds for both walks;
      - the shape buffer holds exactly the non-core nodes of the way walked
        since the cursor's node, with their locations;
      - every edge added since the walk started matches its trace entry and
        that entry is exclusive. */
module WalkShapes {
  import opened Base
  import opened DecodedTile
  import opened GlobalIds
  import opened WalkSpec
  import opened WalkGrowth
  import opened WalkCursor

  /** The buffered locations are the locations of the buffered nodes. */
  ghost predicate ShapeOf(shape: seq<Coordinate>, shapeNodes: seq<int64>, nodes: map<int64, NodeInfo>)
  {
    |shape| == |shapeNodes| &&
    forall i :: 0 <= i < |shapeNodes| ==> shapeNodes[i] in nodes && shape[i] == nodes[shapeNodes[i]].location
  }

  /** The buffer holds non-core nodes and their locations. */
  ghost predicate Buffer(shape: seq<Coordinate>, shapeNodes: seq<int64>, nodes: map<int64, NodeInfo>, core: set<int64>)
  {
    |shape| == |shapeNodes| &&
    forall i :: 0 <= i < |shapeNodes| ==>
      shapeNodes[i] in nodes && shape[i] == nodes[shapeNodes[i]].location && shapeNodes[i] !in core
  }

  /** A core node is not buffered. */
  lemma CoreNotBuffered(shape: seq<Coordinate>, shapeNodes: seq<int64>, nodes: map<int64, NodeInfo>, core: set<int64>, x: int64)
    requires Buffer(shape, shapeNodes, nodes, core) && x in core
    ensures x !in shapeNodes
  {
  }

  /** Neither end node of an edge is one of its shape points. */
  ghost predicate Exclusive(e: EdgeNodes)
  {
    e.from !in e.shape && e.to !in e.shape
  }

  /** A stored edge is the edge its trace entry describes. */
  ghost predicate EdgeMatches(e: Edge, t: EdgeNodes, ids: map<int64, nat>, nodes: map<int64, NodeInfo>)
  {
    t.from in ids && t.to in ids && e.from == ids[t.from] && e.to == ids[t.to] && ShapeOf(e.shape, t.shape, nodes)
  }

  ghost predicate TraceMatches(st: WalkState, nodes: map<int64, NodeInfo>, base: nat)
  {
    |st.edges| == base + |st.trace| &&
    forall i :: 0 <= i < |st.trace| ==> Exclusive(st.trace[i]) && EdgeMatches(st.edges[base + i], st.trace[i], st.ids, nodes)
  }

  /** The cursor discipline of WalkCursor, the buffer of non-core nodes, and the matching trace. */
  ghost predicate Stable(st: WalkState, nodes: map<int64, NodeInfo>, base: nat)
  {
    && Disciplined(st, nodes)
    && Buffer(st.shape, st.shapeNodes, nodes, st.core)
    && TraceMatches(st, nodes, base)
  }

  /** Before the segment from way[n] to way[n + 1]: the buffered nodes are the
      way's nodes just after the cursor's node, up to way[n]. */
  ghost predicate Tracked(st: WalkState, way: seq<int64>, n: nat)
  {
    n < |way| &&
    (st.cursor.At? ==>
       |st.shapeNodes| <= n && way[n - |st.shapeNodes|] == st.cursorNode &&
       forall j :: 0 <= j < |st.shapeNodes| ==> st.shapeNodes[j] == way[n + 1 - |st.shapeNodes| + j])
  }

  /** A node that occurs twice in the way is core. */
  ghost predicate RepeatsCore(way: seq<int64>, core: set<int64>)
  {
    forall p, q :: 0 <= p < q < |way| && way[p] == way[q] ==> way[p] in core
  }

  lemma RepeatsCoreGrows(way: seq<int64>, core: set<int64>, core': set<int64>)
    requires RepeatsCore(way, core) && core <= core'
    ensures RepeatsCore(way, core')
  {
  }

  /** A step that only adds vertices and ids keeps the trace matching. */
  lemma TraceMatchesGrows(a: WalkState, b: WalkState, nodes: map<int64, NodeInfo>, base: nat)
    requires TraceMatches(a, nodes, base) && b.edges == a.edges && b.trace == a.trace
    requires forall k :: k in a.ids ==> k in b.ids && b.ids[k] == a.ids[k]
    ensures TraceMatches(b, nodes, base)
  {
  }

  /** When way[n] is already core the buffer is empty: it only holds non-core nodes and ends at way[n]. */
  lemma CoreHeadEmptiesBuffer(st: WalkState, nodes: map<int64, NodeInfo>, base: nat, way: seq<int64>, n: nat)
    requires Stable(st, nodes, base) && Tracked(st, way, n) && way[n] in st.core
    ensures st.shapeNodes == []
  {
    BufferEndsAtHead(st, way, n);
  }

  /** The last buffered node is way[n]. */
  lemma BufferEndsAtHead(st: WalkState, way: seq<int64>, n: nat)
    requires Tracked(st, way, n)
    ensures st.cursor.At? && |st.shapeNodes| > 0 ==> st.shapeNodes[|st.shapeNodes| - 1] == way[n]
  {
  }

  lemma EnsureVertexKeeps(st: WalkState, id: int64, nodes: map<int64, NodeInfo>, base: nat)
    requires Stable(st, nodes, base) && id in nodes
    ensures var (r, v) := EnsureVertex(st, id, nodes[id].location);
      Stable(r, nodes, base) && r.core == st.core && r.cursor == st.cursor && r.cursorNode == st.cursorNode &&
      r.shapeNodes == st.shapeNodes && (forall k :: k in st.ids ==> k in r.ids && r.ids[k] == st.ids[k])
  {
    var (r, v) := EnsureVertex(st, id, nodes[id].location);
    TraceMatchesGrows(st, r, nodes, base);
  }

  /** Closing an edge between two mapped nodes, neither of them buffered, keeps the invariant. */
  lemma EmitKeeps(st: WalkState, env: Env, fromNode: int64, toNode: int64, pm: ProfileMeta, nodes: map<int64, NodeInfo>, base: nat)
    requires Stable(st, nodes, base) && pm.Ids? && fromNode in st.ids && toNode in st.ids
    requires fromNode !in st.shapeNodes && toNode !in st.shapeNodes
    ensures var r := EmitEdge(st, env, st.ids[fromNode], st.ids[toNode], fromNode, toNode, pm);
      Stable(r, nodes, base) && r.shapeNodes == [] && r.core == st.core && r.ids == st.ids &&
      r.cursor == st.cursor && r.cursorNode == st.cursorNode
  {
    var r := EmitEdge(st, env, st.ids[fromNode], st.ids[toNode], fromNode, toNode, pm);
    assert r.trace[|st.trace|] == EdgeNodes(fromNode, toNode, st.shapeNodes);
    forall i | 0 <= i < |r.trace|
      ensures Exclusive(r.trace[i]) && EdgeMatches(r.edges[base + i], r.trace[i], r.ids, nodes)
    {
      if i < |st.trace| {
        assert r.trace[i] == st.trace[i] && r.edges[base + i] == st.edges[base + i];
      }
    }
  }

  /** The promotion of the corrected walk: afterwards both ends of the segment
      are core, no buffered node is core, and the buffer is empty whenever the
      cursor sits on way[n]. */
  lemma PromoteKeeps(st: WalkState, nodes: map<int64, NodeInfo>, base: nat, way: seq<int64>, n: nat)
    requires Stable(st, nodes, base) && Tracked(st, way, n) && n + 1 < |way| && RepeatsCore(way, st.core)
    ensures var p := Promote(st, way[n], way[n + 1], true);
      Stable(p, nodes, base) && way[n] in p.core && way[n + 1] in p.core && p.core == st.core + {way[n], way[n + 1]} &&
      (p.cursor.At? && p.cursorNode == way[n] ==> p.shapeNodes == []) &&
      p.vertices == st.vertices && p.edges == st.edges && p.ids == st.ids && p.updated == st.updated &&
      p.profiles == st.profiles && p.metas == st.metas && p.cursor == st.cursor
  {
    var p := Promote(st, way[n], way[n + 1], true);
    if way[n] in st.core {
      CoreHeadEmptiesBuffer(st, nodes, base, way, n);
    } else if st.cursor.At? {
      DroppedBufferNotCore(st, nodes, base, way, n);
      BufferDropLast(st.shape, st.shapeNodes, nodes, st.core, way[n], way[n + 1]);
    }
  }

  /** When node1 only now becomes core with a cursor open, it is the last buffered
      node; the nodes buffered before it are neither core nor an end of the segment. */
  lemma DroppedBufferNotCore(st: WalkState, nodes: map<int64, NodeInfo>, base: nat, way: seq<int64>, n: nat)
    requires Stable(st, nodes, base) && Tracked(st, way, n) && n + 1 < |way| && RepeatsCore(way, st.core)
    requires way[n] !in st.core && st.cursor.At?
    ensures |st.shapeNodes| > 0 && st.shapeNodes[|st.shapeNodes| - 1] == way[n]
    ensures forall j :: 0 <= j < |st.shapeNodes| - 1 ==> st.shapeNodes[j] != way[n] && st.shapeNodes[j] != way[n + 1]
  {
    var k := |st.shapeNodes|;
    forall j | 0 <= j < k - 1 ensures st.shapeNodes[j] != way[n] && st.shapeNodes[j] != way[n + 1] {
      assert n + 1 - k + j < n;
    }
  }

  /** Dropping the last buffered point, and adding core nodes none of the remaining points is. */
  lemma BufferDropLast(shape: seq<Coordinate>, shapeNodes: seq<int64>, nodes: map<int64, NodeInfo>, core: set<int64>, a: int64, b: int64)
    requires Buffer(shape, shapeNodes, nodes, core) && |shape| > 0
    requires forall j :: 0 <= j < |shapeNodes| - 1 ==> shapeNodes[j] != a && shapeNodes[j] != b
    ensures Buffer(shape[..|shape| - 1], shapeNodes[..|shapeNodes| - 1], nodes, core + {a, b})
  {
  }

  /** The node1 step: afterwards the cursor, if open, sits on node1 and the buffer is empty. */
  lemma Node1Keeps(p: WalkState, env: Env, id1: int64, pm: ProfileMeta, nodes: map<int64, NodeInfo>, base: nat)
    requires Stable(p, nodes, base) && id1 in p.core && id1 in nodes && pm.Ids?
    requires p.cursor.At? && p.cursorNode == id1 ==> p.shapeNodes == []
    ensures var m := Node1(p, env, id1, nodes[id1], pm);
      Stable(m, nodes, base) && m.shapeNodes == [] && (m.cursor.At? ==> m.cursorNode == id1) &&
      m.core == p.core && id1 in m.ids && (forall k :: k in p.ids ==> k in m.ids && m.ids[k] == p.ids[k])
  {
    var (st1, v) := EnsureVertex(p, id1, nodes[id1].location);
    EnsureVertexKeeps(p, id1, nodes, base);
    if st1.cursor == At(v) {
      assert st1.ids[st1.cursorNode] == st1.ids[id1];
    } else if st1.cursor.At? {
      CoreNotBuffered(st1.shape, st1.shapeNodes, nodes, st1.core, st1.cursorNode);
      CoreNotBuffered(st1.shape, st1.shapeNodes, nodes, st1.core, id1);
      EmitKeeps(st1, env, st1.cursorNode, id1, pm, nodes, base);
    }
  }

  /** The node2 step of a segment whose node2 is core. */
  lemma Node2Keeps(m: WalkState, env: Env, id1: int64, id2: int64, crossing: bool, pm: ProfileMeta,
                   nodes: map<int64, NodeInfo>, base: nat, way: seq<int64>, n: nat)
    requires Stable(m, nodes, base) && id2 in m.core && id2 in nodes && pm.Ids?
    requires crossing ==> id1 in m.ids && id1 in m.core
    requires n + 1 < |way| && way[n + 1] == id2
    ensures var (r, f) := Node2(m, env, id1, id2, nodes[id2], crossing, pm);
      Stable(r, nodes, base) && f == Next && Tracked(r, way, n + 1) && r.core == m.core &&
      (forall k :: k in m.ids ==> k in r.ids && r.ids[k] == m.ids[k])
  {
    var (st1, v) := EnsureVertex(m, id2, nodes[id2].location);
    EnsureVertexKeeps(m, id2, nodes, base);
    CoreNotBuffered(st1.shape, st1.shapeNodes, nodes, st1.core, id2);
    if crossing {
      CoreNotBuffered(st1.shape, st1.shapeNodes, nodes, st1.core, id1);
      EmitKeeps(st1, env, id1, id2, pm, nodes, base);
    } else if st1.cursor.At? {
      CoreNotBuffered(st1.shape, st1.shapeNodes, nodes, st1.core, st1.cursorNode);
      EmitKeeps(st1, env, st1.cursorNode, id2, pm, nodes, base);
    }
    assert way[n + 2..n + 2] == [];
  }

  /** A non-core node2 is buffered behind the open cursor. */
  lemma AppendKeeps(m: WalkState, nodes: map<int64, NodeInfo>, base: nat, way: seq<int64>, n: nat)
    requires Stable(m, nodes, base) && Tracked(m, way, n) && n + 1 < |way|
    requires way[n + 1] !in m.core && way[n + 1] in nodes
    ensures var r := AppendShape(m, way[n + 1], nodes[way[n + 1]].location);
      Stable(r, nodes, base) && Tracked(r, way, n + 1) && r.core == m.core && r.ids == m.ids
  {
    if m.cursor.At? {
      var k := |m.shapeNodes|;
    }
  }

  /** Promotion and the node1 step of the corrected walk: the buffer still ends
      at way[n], and a crossing segment has its node1 mapped and core. */
  lemma HeadKeeps(st1: WalkState, env: Env, nodes: map<int64, NodeInfo>, way: seq<int64>, n: nat, crossing: bool, pm: ProfileMeta, base: nat)
    requires Stable(st1, nodes, base) && Tracked(st1, way, n) && n + 1 < |way| && RepeatsCore(way, st1.core)
    requires pm.Ids? && way[n] in nodes && way[n + 1] in nodes
    ensures var st3 := HeadStep(st1, env, way[n], nodes[way[n]], way[n + 1], crossing, pm, true);
      Stable(st3, nodes, base) && Tracked(st3, way, n) && st1.core <= st3.core &&
      (crossing ==> way[n] in st3.ids && way[n] in st3.core && way[n + 1] in st3.core)
  {
    var id1, id2 := way[n], way[n + 1];
    var st2 := if crossing then Promote(st1, id1, id2, true) else st1;
    if crossing {
      PromoteKeeps(st1, nodes, base, way, n);
    } else if id1 in st1.core {
      CoreHeadEmptiesBuffer(st1, nodes, base, way, n);
    }
    if id1 in st2.core {
      Node1Keeps(st2, env, id1, pm, nodes, base);
    }
  }

  /** The node steps of an accepted segment in the corrected walk. */
  lemma AcceptedKeeps(st1: WalkState, env: Env, nodes: map<int64, NodeInfo>, way: seq<int64>, n: nat, pm: ProfileMeta, base: nat)
    requires Stable(st1, nodes, base) && Tracked(st1, way, n) && n + 1 < |way| && RepeatsCore(way, st1.core)
    requires pm.Ids? && way[n] in nodes && way[n + 1] in nodes
    ensures var r := NodeSteps(st1, env, way[n], nodes[way[n]], way[n + 1], nodes[way[n + 1]], pm, true);
      Stable(r.0, nodes, base) && r.1 == Next && Tracked(r.0, way, n + 1) && st1.core <= r.0.core
  {
    var id1, id2 := way[n], way[n + 1];
    var crossing := !nodes[id1].inTile || !nodes[id2].inTile;
    var st3 := HeadStep(st1, env, id1, nodes[id1], id2, crossing, pm, true);
    HeadKeeps(st1, env, nodes, way, n, crossing, pm, base);
    if id2 in st3.core {
      Node2Keeps(st3, env, id1, id2, crossing, pm, nodes, base, way, n);
    } else {
      AppendKeeps(st3, nodes, base, way, n);
    }
  }

  /** One segment of the corrected walk keeps the invariant; a way whose tags
      are rejected never opens the cursor. */
  lemma SegmentKeeps(st: WalkState, env: Env, nodes: map<int64, NodeInfo>, way: seq<int64>, tags: Tags, n: nat, base: nat)
    requires Stable(st, nodes, base) && Tracked(st, way, n) && n + 1 < |way| && RepeatsCore(way, st.core)
    requires RejectsTags(env.vehicles, tags) ==> st.cursor.NoVertex?
    ensures Stable(Segment(st, env, nodes, way, tags, n, true).0, nodes, base)
    ensures Segment(st, env, nodes, way, tags, n, true).1 == Next ==> Tracked(Segment(st, env, nodes, way, tags, n, true).0, way, n + 1)
    ensures st.core <= Segment(st, env, nodes, way, tags, n, true).0.core
    ensures RejectsTags(env.vehicles, tags) ==> Segment(st, env, nodes, way, tags, n, true).0.cursor.NoVertex?
  {
    var id1, id2 := way[n], way[n + 1];
    if id1 in nodes && id2 in nodes {
      var (profiles, metas, pm) := ProfileAndMeta(st.profiles, st.metas, env, tags);
      var st1 := st.(profiles := profiles, metas := metas);
      if pm.Ids? {
        AcceptedKeeps(st1, env, nodes, way, n, pm, base);
      }
    }
  }

  /** The segment loop of one way in the corrected walk keeps the invariant. */
  lemma SegmentsKeep(st: WalkState, env: Env, nodes: map<int64, NodeInfo>, way: seq<int64>, tags: Tags, n: nat, base: nat)
    requires Stable(st, nodes, base) && st.cursor.NoVertex? && n < |way| && RepeatsCore(way, st.core)
    ensures Stable(Segments(st, env, nodes, way, tags, n, true).0, nodes, base)
    ensures st.core <= Segments(st, env, nodes, way, tags, n, true).0.core
  {
    var P := (s: WalkState, f: Flow, i: nat) =>
      Stable(s, nodes, base) && st.core <= s.core &&
      (f == Next ==> Tracked(s, way, i) && (RejectsTags(env.vehicles, tags) ==> s.cursor.NoVertex?));
    forall s: WalkState, i: nat {:trigger Segment(s, env, nodes, way, tags, i, true)} | Good(s) && i + 1 < |way| && P(s, Next, i)
      ensures P(Segment(s, env, nodes, way, tags, i, true).0, Segment(s, env, nodes, way, tags, i, true).1, i + 1)
    {
      RepeatsCoreGrows(way, st.core, s.core);
      SegmentKeeps(s, env, nodes, way, tags, i, base);
    }
    assert Tracked(st, way, 0);
    SegmentsInduction(P, st, env, nodes, way, tags, n, true);
  }

  lemma WalkWayKeeps(st: WalkState, env: Env, nodes: map<int64, NodeInfo>, way: WayData, base: nat)
    requires Stable(st, nodes, base) && RepeatsCore(way.nodes, st.core)
    ensures var r := WalkWay(st, env, nodes, way, true).0;
      Stable(r, nodes, base) && st.core <= r.core
  {
    var st1 := st.(shape := [], shapeNodes := [], cursor := NoVertex);
    if |way.nodes| > 1 {
      SegmentsKeep(st1, env, nodes, way.nodes, way.tags, |way.nodes| - 1, base);
    }
  }

  lemma {:induction false} WalkWaysKeep(st: WalkState, env: Env, nodes: map<int64, NodeInfo>, ways: map<int64, WayData>, order: seq<int64>, base: nat)
    requires Stable(st, nodes, base) && forall i :: 0 <= i < |order| ==> order[i] in ways
    requires forall id :: id in ways ==> RepeatsCore(ways[id].nodes, st.core)
    ensures var r := WalkWays(st, env, nodes, ways, order, true).0;
      Stable(r, nodes, base) && st.core <= r.core
  {
    if order != [] {
      var front := order[..|order| - 1];
      WalkWaysKeep(st, env, nodes, ways, front, base);
      var (st1, flow) := WalkWays(st, env, nodes, ways, front, true);
      if !flow.Abort? {
        WalkWayKeeps(st1, env, nodes, ways[order[|order| - 1]], base);
      }
    }
  }

  /** The corrected walk over a decoded tile: every edge it adds joins the
      vertices of two nodes, carries the locations of the nodes in between, and
      neither end node is among those shape points. */
  lemma TileEdgesExclusive(vertices: seq<Coordinate>, edges: seq<Edge>, profiles: seq<Tags>, metas: seq<Tags>,
                           ids: map<int64, nat>, env: Env, graph: seq<GraphObject>, order: seq<int64>)
    requires Injective(ids) && forall k :: k in ids ==> ids[k] < |vertices|
    requires forall i :: 0 <= i < |order| ==> order[i] in WayTable(graph)
    ensures var st := Start(vertices, edges, profiles, metas, ids, CoreNodes(graph));
      var r := WalkWays(st, env, NodeTable(graph), WayTable(graph), order, true).0;
      |r.edges| == |edges| + |r.trace| &&
      forall i :: 0 <= i < |r.trace| ==>
        Exclusive(r.trace[i]) && EdgeMatches(r.edges[|edges| + i], r.trace[i], r.ids, NodeTable(graph))
  {
    var st := Start(vertices, edges, profiles, metas, ids, CoreNodes(graph));
    forall id | id in WayTable(graph) ensures RepeatsCore(WayTable(graph)[id].nodes, st.core) {
      TableRepeatsAreCore(graph, id);
    }
    WalkWaysKeep(st, env, NodeTable(graph), WayTable(graph), order, |edges|);
  }
}
