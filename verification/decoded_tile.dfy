/** A decoded routable tile (its JSON-LD graph as a sequence of objects) and
    the core-node pass that TileParser3 runs while reading it. */
module DecodedTile {
  import opened Base

  /** Location of a node and whether it lies inside the tile being loaded. */
  datatype NodeInfo = NodeInfo(location: Coordinate, inTile: bool)

  /** One object of the tile's graph, already decoded. `inTile` is the result
      of projecting the node's location to the tile's zoom level. A
      NodelessWay is a way object that carries no array of nodes. */
  datatype GraphObject =
    | NodeObject(id: int64, location: Coordinate, inTile: bool)
    | WayObject(id: int64, nodes: seq<int64>, tags: Tags)
    | NodelessWay(id: int64, tags: Tags)
    | OtherObject

  datatype WayData = WayData(nodes: seq<int64>, tags: Tags)

  /** nodeLocations after reading the graph: the last object with an id wins. */
  function NodeTable(graph: seq<GraphObject>): map<int64, NodeInfo>
  {
    if graph == [] then map[]
    else
      var o := graph[|graph| - 1];
      var t := NodeTable(graph[..|graph| - 1]);
      if o.NodeObject? then t[o.id := NodeInfo(o.location, o.inTile)] else t
  }

  /** waysData after reading the graph: the last way with an id wins. */
  function WayTable(graph: seq<GraphObject>): map<int64, WayData>
  {
    if graph == [] then map[]
    else
      var o := graph[|graph| - 1];
      var t := WayTable(graph[..|graph| - 1]);
      if o.WayObject? then t[o.id := WayData(o.nodes, o.tags)] else t
  }

  /** Every entry of the way table is the data of some way object of the graph. */
  lemma {:induction false} WayTableFromGraph(graph: seq<GraphObject>, id: int64)
    requires id in WayTable(graph)
    ensures exists i :: (0 <= i < |graph| && graph[i].WayObject? && graph[i].id == id &&
                         WayTable(graph)[id] == WayData(graph[i].nodes, graph[i].tags))
  {
    var n := |graph|;
    var o := graph[n - 1];
    if o.WayObject? && o.id == id {
      assert graph[n - 1] == o;
    } else {
      WayTableFromGraph(graph[..n - 1], id);
      var i :| 0 <= i < n - 1 && graph[..n - 1][i].WayObject? && graph[..n - 1][i].id == id &&
        WayTable(graph[..n - 1])[id] == WayData(graph[..n - 1][i].nodes, graph[..n - 1][i].tags);
      assert graph[i] == graph[..n - 1][i];
    }
  }

  /** One sighting of a node in a way: `isEnd` when it is the first or the last node. */
  datatype Ref = Ref(node: int64, isEnd: bool)

  function WayRefs(nodes: seq<int64>): (r: seq<Ref>)
    ensures |r| == |nodes|
    ensures forall p :: 0 <= p < |nodes| ==> r[p] == Ref(nodes[p], p == 0 || p == |nodes| - 1)
  {
    seq(|nodes|, p requires 0 <= p < |nodes| => Ref(nodes[p], p == 0 || p == |nodes| - 1))
  }

  function ObjectRefs(o: GraphObject): seq<Ref>
  {
    if o.WayObject? then WayRefs(o.nodes) else []
  }

  /** All node sightings of the graph, in reading order. */
  function Refs(graph: seq<GraphObject>): seq<Ref>
  {
    if graph == [] then [] else Refs(graph[..|graph| - 1]) + ObjectRefs(graph[|graph| - 1])
  }

  lemma {:induction false} RefsAppend(a: seq<GraphObject>, b: seq<GraphObject>)
    ensures Refs(a + b) == Refs(a) + Refs(b)
  {
    if b == [] {
      assert a + b == a;
    } else {
      var init, last := b[..|b| - 1], b[|b| - 1];
      assert (a + b)[..|a + b| - 1] == a + init;
      assert (a + b)[|a + b| - 1] == last;
      assert Refs(a + b) == Refs(a + init) + ObjectRefs(last);
      assert Refs(b) == Refs(init) + ObjectRefs(last);
      RefsAppend(a, init);
      assert Refs(a) + Refs(init) + ObjectRefs(last) == Refs(a) + (Refs(init) + ObjectRefs(last));
    }
  }

  /** The sightings of the way at index i sit in Refs(graph) at offset |Refs(graph[..i])|. */
  lemma WayRefsInside(graph: seq<GraphObject>, i: nat, p: nat)
    requires i < |graph| && graph[i].WayObject? && p < |graph[i].nodes|
    ensures |Refs(graph[..i])| + p < |Refs(graph)|
    ensures Refs(graph)[|Refs(graph[..i])| + p] == WayRefs(graph[i].nodes)[p]
  {
    assert graph == graph[..i] + [graph[i]] + graph[i + 1..];
    RefsAppend(graph[..i] + [graph[i]], graph[i + 1..]);
    RefsAppend(graph[..i], [graph[i]]);
    assert Refs([graph[i]]) == ObjectRefs(graph[i]) by {
      assert [graph[i]][..0] == [];
    }
  }

  /** The two sets the pass fills: `nodes` (seen at least once) and `core`. */
  datatype Seen = Seen(nodes: set<int64>, core: set<int64>)

  /** One sighting: an endpoint is always core, an interior node becomes core
      when it has been seen before; then it is recorded as seen. */
  function Visit(s: Seen, r: Ref): Seen
  {
    Seen(s.nodes + {r.node}, if r.isEnd || r.node in s.nodes then s.core + {r.node} else s.core)
  }

  function Pass(refs: seq<Ref>): Seen
  {
    if refs == [] then Seen({}, {}) else Visit(Pass(refs[..|refs| - 1]), refs[|refs| - 1])
  }

  ghost predicate EndpointSighting(refs: seq<Ref>, x: int64)
  {
    exists k :: 0 <= k < |refs| && refs[k] == Ref(x, true)
  }

  ghost predicate SeenTwice(refs: seq<Ref>, x: int64)
  {
    exists k1, k2 :: 0 <= k1 < k2 < |refs| && refs[k1].node == x && refs[k2].node == x
  }

  /** The pass records exactly the nodes that were sighted. */
  lemma {:induction false} PassSeesAll(refs: seq<Ref>)
    ensures forall x :: x in Pass(refs).nodes <==> Sighted(refs, x)
  {
    if refs != [] {
      var n := |refs|;
      PassSeesAll(refs[..n - 1]);
      forall x ensures x in Pass(refs).nodes <==> Sighted(refs, x) {
        if x in Pass(refs[..n - 1]).nodes {
          var k :| 0 <= k < n - 1 && refs[..n - 1][k].node == x;
          assert refs[k].node == x;
        }
        if k :| 0 <= k < n && refs[k].node == x {
          if k < n - 1 {
            assert refs[..n - 1][k].node == x;
          }
        }
      }
    }
  }

  /** The core nodes are exactly the nodes sighted as a way endpoint or sighted
      at least twice (in any ways, at any positions). */
  lemma {:induction false} PassCore(refs: seq<Ref>, x: int64)
    ensures x in Pass(refs).core <==> EndpointSighting(refs, x) || SeenTwice(refs, x)
  {
    if refs != [] {
      var n := |refs|;
      var front := refs[..n - 1];
      PassCore(front, x);
      PassSeesAll(front);
      PassCoreFromFront(refs, x);
      PassCoreToFront(refs, x);
    }
  }

  /** What the front already showed still holds with one more sighting. */
  lemma PassCoreFromFront(refs: seq<Ref>, x: int64)
    requires refs != []
    ensures EndpointSighting(refs[..|refs| - 1], x) ==> EndpointSighting(refs, x)
    ensures SeenTwice(refs[..|refs| - 1], x) ==> SeenTwice(refs, x)
    ensures refs[|refs| - 1] == Ref(x, true) ==> EndpointSighting(refs, x)
    ensures (refs[|refs| - 1].node == x && Sighted(refs[..|refs| - 1], x)) ==> SeenTwice(refs, x)
  {
    var n := |refs|;
    var front := refs[..n - 1];
    if EndpointSighting(front, x) {
      var k :| 0 <= k < n - 1 && front[k] == Ref(x, true);
      assert refs[k] == Ref(x, true);
    }
    if SeenTwice(front, x) {
      var k1, k2 :| 0 <= k1 < k2 < n - 1 && front[k1].node == x && front[k2].node == x;
      assert refs[k1].node == x && refs[k2].node == x;
    }
    if refs[n - 1].node == x && Sighted(front, x) {
      var k :| 0 <= k < n - 1 && front[k].node == x;
      assert refs[k].node == x && refs[n - 1].node == x;
    }
    if refs[n - 1] == Ref(x, true) {
      assert refs[n - 1] == Ref(x, true);
    }
  }

  /** A sighting of the whole sequence is one of the front or the last one. */
  lemma PassCoreToFront(refs: seq<Ref>, x: int64)
    requires refs != []
    ensures EndpointSighting(refs, x) ==> EndpointSighting(refs[..|refs| - 1], x) || refs[|refs| - 1] == Ref(x, true)
    ensures SeenTwice(refs, x) ==> (SeenTwice(refs[..|refs| - 1], x) || (refs[|refs| - 1].node == x && Sighted(refs[..|refs| - 1], x)))
  {
    var n := |refs|;
    var front := refs[..n - 1];
    if EndpointSighting(refs, x) {
      var k :| 0 <= k < n && refs[k] == Ref(x, true);
      if k < n - 1 {
        assert front[k] == Ref(x, true);
      }
    }
    if SeenTwice(refs, x) {
      var k1, k2 :| 0 <= k1 < k2 < n && refs[k1].node == x && refs[k2].node == x;
      if k2 < n - 1 {
        assert front[k1].node == x && front[k2].node == x;
      } else {
        assert front[k1].node == x;
      }
    }
  }

  ghost predicate Sighted(refs: seq<Ref>, x: int64)
  {
    exists k :: 0 <= k < |refs| && refs[k].node == x
  }

  /** The core set of a decoded tile. */
  function CoreNodes(graph: seq<GraphObject>): set<int64>
  {
    Pass(Refs(graph)).core
  }

  /** The first and the last node of every way are core. */
  lemma WayEndsAreCore(graph: seq<GraphObject>, i: nat)
    requires i < |graph| && graph[i].WayObject? && |graph[i].nodes| > 0
    ensures graph[i].nodes[0] in CoreNodes(graph)
    ensures graph[i].nodes[|graph[i].nodes| - 1] in CoreNodes(graph)
  {
    var nodes := graph[i].nodes;
    var base := |Refs(graph[..i])|;
    WayRefsInside(graph, i, 0);
    WayRefsInside(graph, i, |nodes| - 1);
    PassCore(Refs(graph), nodes[0]);
    PassCore(Refs(graph), nodes[|nodes| - 1]);
    assert Refs(graph)[base] == Ref(nodes[0], true);
    assert Refs(graph)[base + |nodes| - 1] == Ref(nodes[|nodes| - 1], true);
  }

  /** A node that occurs twice in one way is core. */
  lemma WayRepeatsAreCore(graph: seq<GraphObject>, i: nat, p: nat, q: nat)
    requires i < |graph| && graph[i].WayObject?
    requires p < q < |graph[i].nodes| && graph[i].nodes[p] == graph[i].nodes[q]
    ensures graph[i].nodes[p] in CoreNodes(graph)
  {
    var base := |Refs(graph[..i])|;
    WayRefsInside(graph, i, p);
    WayRefsInside(graph, i, q);
    PassCore(Refs(graph), graph[i].nodes[p]);
    assert Refs(graph)[base + p].node == graph[i].nodes[p];
    assert Refs(graph)[base + q].node == graph[i].nodes[p];
  }

  /** Every node that occurs twice in a way of the way table is core. */
  lemma TableRepeatsAreCore(graph: seq<GraphObject>, id: int64)
    requires id in WayTable(graph)
    ensures forall p, q :: (0 <= p < q < |WayTable(graph)[id].nodes| && WayTable(graph)[id].nodes[p] == WayTable(graph)[id].nodes[q]
                            ==> WayTable(graph)[id].nodes[p] in CoreNodes(graph))
  {
    WayTableFromGraph(graph, id);
    var i :| 0 <= i < |graph| && graph[i].WayObject? && graph[i].id == id &&
      WayTable(graph)[id] == WayData(graph[i].nodes, graph[i].tags);
    forall p, q | 0 <= p < q < |graph[i].nodes| && graph[i].nodes[p] == graph[i].nodes[q]
      ensures graph[i].nodes[p] in CoreNodes(graph)
    {
      WayRepeatsAreCore(graph, i, p, q);
    }
  }
}
