/** What every step of the TileParser3 walk does to the store and to the
    global-id map, whichever of the two walks (as written or corrected) runs:
    the store and the map only grow, a vertex is created only for an unmapped
    id and is registered under that id at once, `updated` records exactly
    whether something was added, and the boundary exception is unreachable. */
module WalkGrowth {
  import opened Base
  import opened DecodedTile
  import opened GlobalIds
  import opened TagClassifier
  import opened WalkSpec

  /** From state a to state b:
      - vertices, edges and dictionaries are only appended to;
      - every mapped id keeps its vertex;
      - every newly mapped id got a fresh handle (>= the old VertexCount) at its node's location,
        two new ids never share a handle, and every new vertex is the vertex of a new id;
      - the core set only grows;
      - `updated` is set exactly when a vertex or an edge was added. */
  ghost predicate Grows(a: WalkState, b: WalkState, nodes: map<int64, NodeInfo>)
  {
    && |a.vertices| <= |b.vertices| && b.vertices[..|a.vertices|] == a.vertices
    && |a.edges| <= |b.edges| && b.edges[..|a.edges|] == a.edges
    && |a.profiles| <= |b.profiles| && b.profiles[..|a.profiles|] == a.profiles
    && |a.metas| <= |b.metas| && b.metas[..|a.metas|] == a.metas
    && (forall k :: k in a.ids ==> k in b.ids && b.ids[k] == a.ids[k])
    && (forall k :: k in b.ids && k !in a.ids ==>
          |a.vertices| <= b.ids[k] < |b.vertices| && k in nodes && b.vertices[b.ids[k]] == nodes[k].location)
    && (forall k1, k2 :: k1 in b.ids && k2 in b.ids && k1 !in a.ids && k2 !in a.ids && k1 != k2 ==> b.ids[k1] != b.ids[k2])
    && (forall v :: |a.vertices| <= v < |b.vertices| ==> NewOwner(a.ids, b.ids, v))
    && a.core <= b.core
    && b.updated == (a.updated || |b.vertices| > |a.vertices| || |b.edges| > |a.edges|)
  }

  /** Some id mapped in `after` but not in `before` has vertex v. */
  ghost predicate NewOwner(before: map<int64, nat>, after: map<int64, nat>, v: int)
  {
    exists k :: k in after && k !in before && after[k] == v
  }

  /** A step that leaves the store, the map and the flag alone and only adds core nodes keeps Grows. */
  lemma GrowsThenWalkFields(a: WalkState, b: WalkState, c: WalkState, nodes: map<int64, NodeInfo>)
    requires Grows(a, b, nodes)
    requires c.vertices == b.vertices && c.edges == b.edges && c.profiles == b.profiles && c.metas == b.metas
    requires c.ids == b.ids && c.updated == b.updated && b.core <= c.core
    ensures Grows(a, c, nodes)
  {
    forall v | |a.vertices| <= v < |c.vertices| ensures NewOwner(a.ids, c.ids, v) {
      assert NewOwner(a.ids, b.ids, v);
    }
  }

  lemma GrowsRefl(a: WalkState, nodes: map<int64, NodeInfo>)
    ensures Grows(a, a, nodes)
  {
  }

  lemma GrowsTrans(a: WalkState, b: WalkState, c: WalkState, nodes: map<int64, NodeInfo>)
    requires Good(b) && Grows(a, b, nodes) && Grows(b, c, nodes)
    ensures Grows(a, c, nodes)
  {
    assert c.vertices[..|a.vertices|] == c.vertices[..|b.vertices|][..|a.vertices|];
    assert c.edges[..|a.edges|] == c.edges[..|b.edges|][..|a.edges|];
    assert c.profiles[..|a.profiles|] == c.profiles[..|b.profiles|][..|a.profiles|];
    assert c.metas[..|a.metas|] == c.metas[..|b.metas|][..|a.metas|];
    forall k | k in c.ids && k !in a.ids
      ensures |a.vertices| <= c.ids[k] < |c.vertices| && k in nodes && c.vertices[c.ids[k]] == nodes[k].location
    {
      if k in b.ids {
        assert c.vertices[c.ids[k]] == c.vertices[..|b.vertices|][b.ids[k]];
      }
    }
    forall v | |a.vertices| <= v < |c.vertices|
      ensures NewOwner(a.ids, c.ids, v)
    {
      if v < |b.vertices| {
        assert NewOwner(a.ids, b.ids, v);
        var k :| k in b.ids && k !in a.ids && b.ids[k] == v;
        assert c.ids[k] == v;
      } else {
        assert NewOwner(b.ids, c.ids, v);
        var k :| k in c.ids && k !in b.ids && c.ids[k] == v;
        assert k !in a.ids;
      }
    }
  }

  /** A map that is injective and points into the old store stays injective. */
  lemma GrowsKeepsInjective(a: WalkState, b: WalkState, nodes: map<int64, NodeInfo>)
    requires Good(a) && Injective(a.ids) && Grows(a, b, nodes)
    ensures Injective(b.ids)
  {
  }

  /** Only the fields of the walk state that the store and the map do not hold changed. */
  lemma GrowsWhenStoreKept(a: WalkState, b: WalkState, nodes: map<int64, NodeInfo>)
    requires a.vertices == b.vertices && a.edges == b.edges && a.ids == b.ids && a.updated == b.updated
    requires |a.profiles| <= |b.profiles| && b.profiles[..|a.profiles|] == a.profiles
    requires |a.metas| <= |b.metas| && b.metas[..|a.metas|] == a.metas
    requires a.core <= b.core
    ensures Grows(a, b, nodes)
  {
  }

  lemma EnsureVertexGrows(st: WalkState, id: int64, nodes: map<int64, NodeInfo>)
    requires Good(st) && id in nodes
    ensures Grows(st, EnsureVertex(st, id, nodes[id].location).0, nodes)
  {
    var r := EnsureVertex(st, id, nodes[id].location).0;
    if id !in st.ids {
      assert r.vertices[..|st.vertices|] == st.vertices;
      forall v | |st.vertices| <= v < |r.vertices|
        ensures NewOwner(st.ids, r.ids, v)
      {
        assert r.ids[id] == v;
      }
    }
  }

  lemma EmitEdgeGrows(st: WalkState, env: Env, from: nat, to: nat, fromNode: int64, toNode: int64, pm: ProfileMeta, nodes: map<int64, NodeInfo>)
    requires Good(st) && from < |st.vertices| && to < |st.vertices| && pm.Ids?
    ensures Grows(st, EmitEdge(st, env, from, to, fromNode, toNode, pm), nodes)
  {
    var r := EmitEdge(st, env, from, to, fromNode, toNode, pm);
    assert r.edges[..|st.edges|] == st.edges;
  }

  lemma Node1Grows(st: WalkState, env: Env, id1: int64, nodes: map<int64, NodeInfo>, pm: ProfileMeta)
    requires Good(st) && pm.Ids? && id1 in nodes
    ensures Grows(st, Node1(st, env, id1, nodes[id1], pm), nodes)
  {
    var (st1, v) := EnsureVertex(st, id1, nodes[id1].location);
    EnsureVertexGrows(st, id1, nodes);
    if st1.cursor != At(v) {
      var st2 := if st1.cursor.At? then EmitEdge(st1, env, st1.cursor.vertex, v, st1.cursorNode, id1, pm) else st1;
      if st1.cursor.At? {
        EmitEdgeGrows(st1, env, st1.cursor.vertex, v, st1.cursorNode, id1, pm, nodes);
        GrowsTrans(st, st1, st2, nodes);
      }
      GrowsThenWalkFields(st, st2, Open(st2, id1, v, nodes[id1].inTile), nodes);
    }
  }

  lemma Node2Grows(st: WalkState, env: Env, id1: int64, id2: int64, nodes: map<int64, NodeInfo>, crossing: bool, pm: ProfileMeta)
    requires Good(st) && pm.Ids? && id2 in nodes
    ensures Grows(st, Node2(st, env, id1, id2, nodes[id2], crossing, pm).0, nodes)
  {
    var (st1, v) := EnsureVertex(st, id2, nodes[id2].location);
    EnsureVertexGrows(st, id2, nodes);
    if crossing && id1 in st1.ids {
      var st2 := EmitEdge(st1, env, st1.ids[id1], v, id1, id2, pm);
      EmitEdgeGrows(st1, env, st1.ids[id1], v, id1, id2, pm, nodes);
      GrowsTrans(st, st1, st2, nodes);
      GrowsThenWalkFields(st, st2, Open(st2, id2, v, nodes[id2].inTile), nodes);
    } else if !crossing {
      var st2 := if st1.cursor.At? then EmitEdge(st1, env, st1.cursor.vertex, v, st1.cursorNode, id2, pm) else st1;
      if st1.cursor.At? {
        EmitEdgeGrows(st1, env, st1.cursor.vertex, v, st1.cursorNode, id2, pm, nodes);
        GrowsTrans(st, st1, st2, nodes);
      }
      GrowsThenWalkFields(st, st2, Open(st2, id2, v, nodes[id2].inTile), nodes);
    }
  }

  lemma HeadGrows(st1: WalkState, env: Env, nodes: map<int64, NodeInfo>, id1: int64, id2: int64, crossing: bool, pm: ProfileMeta, fix: bool)
    requires Good(st1) && pm.Ids? && id1 in nodes
    ensures Grows(st1, HeadStep(st1, env, id1, nodes[id1], id2, crossing, pm, fix), nodes)
  {
    var st2 := if crossing then Promote(st1, id1, id2, fix) else st1;
    GrowsRefl(st1, nodes);
    GrowsThenWalkFields(st1, st1, st2, nodes);
    if id1 in st2.core {
      Node1Grows(st2, env, id1, nodes, pm);
      GrowsTrans(st1, st2, Node1(st2, env, id1, nodes[id1], pm), nodes);
    }
  }

  /** The node steps of an accepted segment keep Grows. */
  lemma AcceptedGrows(st1: WalkState, env: Env, nodes: map<int64, NodeInfo>, id1: int64, id2: int64, pm: ProfileMeta, fix: bool)
    requires Good(st1) && pm.Ids? && id1 in nodes && id2 in nodes
    ensures Grows(st1, NodeSteps(st1, env, id1, nodes[id1], id2, nodes[id2], pm, fix).0, nodes)
  {
    var crossing := !nodes[id1].inTile || !nodes[id2].inTile;
    var st3 := HeadStep(st1, env, id1, nodes[id1], id2, crossing, pm, fix);
    HeadGrows(st1, env, nodes, id1, id2, crossing, pm, fix);
    if id2 in st3.core {
      Node2Grows(st3, env, id1, id2, nodes, crossing, pm);
      GrowsTrans(st1, st3, Node2(st3, env, id1, id2, nodes[id2], crossing, pm).0, nodes);
    } else {
      GrowsThenWalkFields(st1, st3, AppendShape(st3, id2, nodes[id2].location), nodes);
    }
  }

  /** Grows up to the dictionaries, then the node steps of an accepted segment. */
  lemma GrowsThenAccepted(st: WalkState, st1: WalkState, env: Env, nodes: map<int64, NodeInfo>, id1: int64, id2: int64, pm: ProfileMeta, fix: bool)
    requires Good(st1) && Grows(st, st1, nodes) && pm.Ids? && id1 in nodes && id2 in nodes
    ensures Grows(st, NodeSteps(st1, env, id1, nodes[id1], id2, nodes[id2], pm, fix).0, nodes)
  {
    AcceptedGrows(st1, env, nodes, id1, id2, pm, fix);
    GrowsTrans(st, st1, NodeSteps(st1, env, id1, nodes[id1], id2, nodes[id2], pm, fix).0, nodes);
  }

  /** One segment keeps all the facts of Grows. */
  lemma SegmentGrows(st: WalkState, env: Env, nodes: map<int64, NodeInfo>, way: seq<int64>, tags: Tags, n: nat, fix: bool)
    requires Good(st) && n + 1 < |way|
    ensures Grows(st, Segment(st, env, nodes, way, tags, n, fix).0, nodes)
  {
    var id1, id2 := way[n], way[n + 1];
    if id1 !in nodes || id2 !in nodes {
      GrowsRefl(st, nodes);
    } else {
      var (profiles, metas, pm) := ProfileAndMeta(st.profiles, st.metas, env, tags);
      var st1 := st.(profiles := profiles, metas := metas);
      ProfileAndMetaExtends(st.profiles, st.metas, env, tags);
      GrowsWhenStoreKept(st, st1, nodes);
      if pm.Ids? {
        assert Segment(st, env, nodes, way, tags, n, fix).0 == NodeSteps(st1, env, id1, nodes[id1], id2, nodes[id2], pm, fix).0;
        GrowsThenAccepted(st, st1, env, nodes, id1, id2, pm, fix);
      } else {
        assert Segment(st, env, nodes, way, tags, n, fix).0 == st1;
      }
    }
  }

  /** AddProfileAndMeta only appends to the two dictionaries. */
  lemma ProfileAndMetaExtends(profiles: seq<Tags>, metas: seq<Tags>, env: Env, tags: Tags)
    ensures var r := ProfileAndMeta(profiles, metas, env, tags);
      |profiles| <= |r.0| && r.0[..|profiles|] == profiles && |metas| <= |r.1| && r.1[..|metas|] == metas
  {
    if env.vehicles.whitelist(tags).Some? {
      var wl := env.vehicles.whitelist(tags).value;
      Store.InternExtends(profiles, ProfilePart(tags, wl));
      Store.InternExtends(metas, MetaPart(env.vehicles, tags, wl));
    }
  }

  /** Induction over the segment loop: a property of (state, flow, segments
      done) that the start has, that every segment taken from a Next state
      keeps, and that a stopped loop keeps, holds after any number of segments. */
  lemma SegmentsInduction(P: (WalkState, Flow, nat) -> bool, st: WalkState, env: Env, nodes: map<int64, NodeInfo>,
                                             way: seq<int64>, tags: Tags, n: nat, fix: bool)
    requires Good(st) && n < |way| && P(st, Next, 0)
    requires forall s: WalkState, i: nat {:trigger Segment(s, env, nodes, way, tags, i, fix)} ::
      Good(s) && i + 1 < |way| && P(s, Next, i) ==>
      P(Segment(s, env, nodes, way, tags, i, fix).0, Segment(s, env, nodes, way, tags, i, fix).1, i + 1)
    requires forall s: WalkState, f: Flow, i: nat, j: nat {:trigger P(s, f, i), P(s, f, j)} :: f != Next && i <= j && P(s, f, i) ==> P(s, f, j)
    ensures P(Segments(st, env, nodes, way, tags, n, fix).0, Segments(st, env, nodes, way, tags, n, fix).1, n)
  {
    var i := 0;
    while i < n
      invariant i <= n
      invariant P(Segments(st, env, nodes, way, tags, i, fix).0, Segments(st, env, nodes, way, tags, i, fix).1, i)
    {
      var prev := Segments(st, env, nodes, way, tags, i, fix);
      var next := i + 1;
      if prev.1 == Next {
        var r := Segment(prev.0, env, nodes, way, tags, i, fix);
        assert Segments(st, env, nodes, way, tags, next, fix) == r;
      } else {
        assert Segments(st, env, nodes, way, tags, next, fix) == prev;
      }
      i := next;
    }
  }

  lemma SegmentsGrow(st: WalkState, env: Env, nodes: map<int64, NodeInfo>, way: seq<int64>, tags: Tags, n: nat, fix: bool)
    requires Good(st) && n < |way|
    ensures Grows(st, Segments(st, env, nodes, way, tags, n, fix).0, nodes)
  {
    var P := (s: WalkState, f: Flow, i: nat) => Good(s) && Grows(st, s, nodes);
    GrowsRefl(st, nodes);
    forall s: WalkState, i: nat {:trigger Segment(s, env, nodes, way, tags, i, fix)} | Good(s) && i + 1 < |way| && P(s, Next, i)
      ensures P(Segment(s, env, nodes, way, tags, i, fix).0, Segment(s, env, nodes, way, tags, i, fix).1, i + 1)
    {
      SegmentGrows(s, env, nodes, way, tags, i, fix);
      GrowsTrans(st, s, Segment(s, env, nodes, way, tags, i, fix).0, nodes);
    }
    SegmentsInduction(P, st, env, nodes, way, tags, n, fix);
  }

  lemma WalkWayGrows(st: WalkState, env: Env, nodes: map<int64, NodeInfo>, way: WayData, fix: bool)
    requires Good(st)
    ensures Grows(st, WalkWay(st, env, nodes, way, fix).0, nodes)
  {
    var st1 := st.(shape := [], shapeNodes := [], cursor := NoVertex);
    if |way.nodes| > 1 {
      SegmentsGrow(st1, env, nodes, way.nodes, way.tags, |way.nodes| - 1, fix);
    }
  }

  /** The whole walk of a tile: the map never gains two handles for one id,
      new handles are fresh and `updated` is true exactly when the store grew. */
  lemma {:induction false} WalkWaysGrow(st: WalkState, env: Env, nodes: map<int64, NodeInfo>, ways: map<int64, WayData>, order: seq<int64>, fix: bool)
    requires Good(st) && forall i :: 0 <= i < |order| ==> order[i] in ways
    ensures Grows(st, WalkWays(st, env, nodes, ways, order, fix).0, nodes)
  {
    if order == [] {
      GrowsRefl(st, nodes);
    } else {
      var front := order[..|order| - 1];
      WalkWaysGrow(st, env, nodes, ways, front, fix);
      var (st1, flow) := WalkWays(st, env, nodes, ways, front, fix);
      if !flow.Abort? {
        WalkWayGrows(st1, env, nodes, ways[order[|order| - 1]], fix);
        GrowsTrans(st, st1, WalkWay(st1, env, nodes, ways[order[|order| - 1]], fix).0, nodes);
      }
    }
  }
}
