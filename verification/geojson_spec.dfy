/** GeoJsonTileParser.AddOsmTile as functions: a tile is a collection of
    features, a LineString feature gives at most one edge between its two
    end vertices, and the id and attribute parsers are the stubs the source
    ships, which always fail. The GlobalIdMap is only read. */
module GeoJsonSpec {
  import opened Base
  import opened Store
  import opened TagClassifier
  import WalkSpec

  datatype Geometry = LineString(coordinates: seq<Coordinate>) | OtherGeometry

  /** A feature: its geometry and its attribute table as (name, value) pairs. */
  datatype Feature = Feature(geometry: Geometry, attributes: seq<(string, string)>)

  /** The part of the router database the loader changes. */
  datatype Net = Net(vertices: seq<Coordinate>, edges: seq<Edge>, profiles: seq<Tags>, metas: seq<Tags>)

  /** The exceptions that escape: Coordinates[0] of an empty line string, the
      profile limit, and RemoveAt(-1) on the shape of a one-point line string. */
  datatype GeoFailure = NoCoordinates | ProfileLimit | ShortLine

  /** How a feature ends: the next feature follows, the whole tile is left
      (the `return` for a profile no vehicle can traverse), or an exception. */
  datatype Outcome = Continue | Stop | Throw(failure: GeoFailure)

  const VERTEX1_ATTRIBUTE: string := "vertex1"
  const VERTEX2_ATTRIBUTE: string := "vertex2"

  /** The global-id parser as shipped: it fails and yields 0. */
  function TryParseGlobalId(value: string): (r: (bool, int64))
    ensures !r.0 && r.1 == 0
  {
    (false, 0)
  }

  /** The attribute-value parser as shipped: it fails and yields the empty string. */
  function TryParseAttributeValue(value: string): (r: (bool, string))
    ensures !r.0 && r.1 == ""
  {
    (false, "")
  }

  /** What the attribute loop collects: the attributes and the two global ids. */
  datatype Parsed = Parsed(attributes: Tags, global1: int64, global2: int64)

  /** One entry of the attribute loop. A vertex id that parses is replaced by
      GLOBAL_ID_EMPTY (the test is inverted); one that does not parse keeps the
      parser's out value. Any other entry is an attribute when its value parses. */
  function ParseEntry(p: Parsed, name: string, value: string): Parsed
  {
    if name == VERTEX1_ATTRIBUTE then
      var (ok, id) := TryParseGlobalId(value);
      p.(global1 := if ok then GLOBAL_ID_EMPTY else id)
    else if name == VERTEX2_ATTRIBUTE then
      var (ok, id) := TryParseGlobalId(value);
      p.(global2 := if ok then GLOBAL_ID_EMPTY else id)
    else
      var (ok, v) := TryParseAttributeValue(value);
      if ok then p.(attributes := p.attributes[name := v]) else p
  }

  /** The attribute loop over a prefix of the table, from no attributes and both ids EMPTY. */
  function ParseAttributes(entries: seq<(string, string)>): Parsed
  {
    if entries == [] then Parsed(map[], GLOBAL_ID_EMPTY, GLOBAL_ID_EMPTY)
    else
      var last := entries[|entries| - 1];
      ParseEntry(ParseAttributes(entries[..|entries| - 1]), last.0, last.1)
  }

  predicate HasName(entries: seq<(string, string)>, name: string)
  {
    exists i :: 0 <= i < |entries| && entries[i].0 == name
  }

  /** With the parsers as shipped, no attribute is ever collected, and a vertex
      id is 0 when the feature has that attribute and GLOBAL_ID_EMPTY otherwise. */
  lemma {:induction false} StubsParseNoAttributes(entries: seq<(string, string)>)
    ensures ParseAttributes(entries).attributes == map[]
    ensures ParseAttributes(entries).global1 == if HasName(entries, VERTEX1_ATTRIBUTE) then 0 else GLOBAL_ID_EMPTY
    ensures ParseAttributes(entries).global2 == if HasName(entries, VERTEX2_ATTRIBUTE) then 0 else GLOBAL_ID_EMPTY
  {
    if entries != [] {
      var init := entries[..|entries| - 1];
      var last := entries[|entries| - 1];
      StubsParseNoAttributes(init);
      assert HasName(entries, VERTEX1_ATTRIBUTE) <==> HasName(init, VERTEX1_ATTRIBUTE) || last.0 == VERTEX1_ATTRIBUTE by {
        if HasName(entries, VERTEX1_ATTRIBUTE) && last.0 != VERTEX1_ATTRIBUTE {
          var i :| 0 <= i < |entries| && entries[i].0 == VERTEX1_ATTRIBUTE;
          assert init[i] == entries[i];
        }
        if HasName(init, VERTEX1_ATTRIBUTE) {
          var i :| 0 <= i < |init| && init[i].0 == VERTEX1_ATTRIBUTE;
          assert entries[i] == init[i];
        }
      }
      assert HasName(entries, VERTEX2_ATTRIBUTE) <==> HasName(init, VERTEX2_ATTRIBUTE) || last.0 == VERTEX2_ATTRIBUTE by {
        if HasName(entries, VERTEX2_ATTRIBUTE) && last.0 != VERTEX2_ATTRIBUTE {
          var i :| 0 <= i < |entries| && entries[i].0 == VERTEX2_ATTRIBUTE;
          assert init[i] == entries[i];
        }
        if HasName(init, VERTEX2_ATTRIBUTE) {
          var i :| 0 <= i < |init| && init[i].0 == VERTEX2_ATTRIBUTE;
          assert entries[i] == init[i];
        }
      }
    }
  }

  /** The vertex of one end of a line string. It comes from the global map only
      when one of the ends lies outside the tile and the id is mapped; otherwise
      from the local map under `localKey`, or else it is a new vertex with
      handle VertexCount at the end's location. The flag says "from the global map". */
  function Endpoint(net: Net, ids: map<int64, nat>, outside: bool, global: int64, localIdMap: map<int64, nat>,
                    localKey: int64, location: Coordinate): (r: (Net, nat, bool))
    ensures r.2 <==> outside && global in ids
    ensures r.2 ==> r.0 == net && r.1 == ids[global]
    ensures !r.2 && localKey !in localIdMap ==> r.1 == |net.vertices| && r.0 == net.(vertices := net.vertices + [location])
    ensures !r.2 && localKey in localIdMap ==> r.0 == net && r.1 == localIdMap[localKey]
  {
    if outside && global in ids then (net, ids[global], true)
    else if localKey in localIdMap then (net, localIdMap[localKey], false)
    else (net.(vertices := net.vertices + [location]), |net.vertices|, false)
  }

  /** The edge of a line string of two points or more: from the first to the
      last end vertex, the estimate summed over all consecutive coordinates, and
      the coordinates without the first and the last as its shape. */
  function LineEdge(env: Env, coordinates: seq<Coordinate>, vertex1: nat, vertex2: nat, profile: nat, meta: nat): Edge
    requires |coordinates| >= 2
  {
    Edge(vertex1, vertex2, ChainLength(env.estimate, coordinates), profile, meta, coordinates[1..|coordinates| - 1])
  }

  /** The two end vertices of a line string, looked up in the global map only
      when one of its ends lies outside the tile; the local map is consulted
      under the first id for both ends. The flag says whether either end came
      from the global map. */
  function EndVertices(net: Net, ids: map<int64, nat>, inside: Coordinate -> bool, localIdMap: map<int64, nat>,
                       p: Parsed, coordinates: seq<Coordinate>): (r: (Net, nat, nat, bool))
    requires |coordinates| > 0
    ensures |net.vertices| <= |r.0.vertices| <= |net.vertices| + 2 && r.0.vertices[..|net.vertices|] == net.vertices
    ensures r.0.edges == net.edges && r.0.profiles == net.profiles && r.0.metas == net.metas
  {
    var location1, location2 := coordinates[0], coordinates[|coordinates| - 1];
    var outside := !inside(location1) || !inside(location2);
    var (net1, vertex1, global1) := Endpoint(net, ids, outside, p.global1, localIdMap, p.global1, location1);
    var (net2, vertex2, global2) := Endpoint(net1, ids, outside, p.global2, localIdMap, p.global1, location2);
    (net2, vertex1, vertex2, global1 || global2)
  }

  /** The profile, the meta and the edge of a feature whose end vertices are
      known: a whitelist rejection skips the feature, a profile no vehicle can
      traverse leaves the tile, the profile limit throws, and a line string of a
      single point throws once its shape loses both ends. */
  function EmitLine(net: Net, env: Env, attributes: Tags, coordinates: seq<Coordinate>, vertex1: nat, vertex2: nat): (r: (Net, Outcome))
    ensures r.0.vertices == net.vertices
    ensures env.vehicles.whitelist(attributes).None? ==> r == (net, Continue)
    ensures r.0.edges == net.edges ||
      (r.1 == Continue && |coordinates| >= 2 && |r.0.edges| == |net.edges| + 1 && r.0.edges[..|net.edges|] == net.edges &&
       var e := r.0.edges[|net.edges|];
       e.from == vertex1 && e.to == vertex2 && e.distance == ChainLength(env.estimate, coordinates) &&
       e.shape == coordinates[1..|coordinates| - 1] && e.profile < |r.0.profiles| && e.meta < |r.0.metas|)
    ensures var wl := env.vehicles.whitelist(attributes);
      wl.Some? && !env.vehicles.anyCanTraverse(ProfilePart(attributes, wl.value)) ==> r == (net, Stop)
    ensures var pm := WalkSpec.ProfileAndMeta(net.profiles, net.metas, env, attributes);
      && (r.1 == Throw(ProfileLimit) <==> pm.2.Overflow?)
      && (r.1 == Throw(ShortLine) <==> pm.2.Ids? && |coordinates| < 2)
      && (!pm.2.Rejected? ==> r.0.profiles == pm.0 && r.0.metas == pm.1)
      && (pm.2.Ids? && |coordinates| >= 2 ==>
            r.1 == Continue && |r.0.edges| == |net.edges| + 1 &&
            r.0.edges[|net.edges|].profile == pm.2.profile && r.0.edges[|net.edges|].meta == pm.2.meta)
  {
    match env.vehicles.whitelist(attributes)
    case None => (net, Continue)
    case Some(wl) =>
      var profileTags := ProfilePart(attributes, wl);
      if !env.vehicles.anyCanTraverse(profileTags) then (net, Stop)
      else
        var (profiles, profile) := Intern(net.profiles, profileTags);
        var net1 := net.(profiles := profiles);
        if profile > env.maxProfileCount then (net1, Throw(ProfileLimit))
        else
          var (metas, meta) := Intern(net1.metas, MetaPart(env.vehicles, attributes, wl));
          var net2 := net1.(metas := metas);
          if |coordinates| < 2 then (net2, Throw(ShortLine))
          else (net2.(edges := net2.edges + [LineEdge(env, coordinates, vertex1, vertex2, profile, meta)]), Continue)
  }

  /** One feature of the collection. */
  function AddFeature(net: Net, ids: map<int64, nat>, env: Env, inside: Coordinate -> bool,
                      localIdMap: map<int64, nat>, feature: Feature): (r: (Net, Outcome))
    ensures !feature.geometry.LineString? ==> r == (net, Continue)
    ensures var p := ParseAttributes(feature.attributes);
      p.global1 == GLOBAL_ID_EMPTY || p.global2 == GLOBAL_ID_EMPTY ==> r == (net, Continue)
    ensures |net.vertices| <= |r.0.vertices| <= |net.vertices| + 2 && r.0.vertices[..|net.vertices|] == net.vertices
    ensures r.0.edges == net.edges || (r.1 == Continue && |r.0.edges| == |net.edges| + 1 && r.0.edges[..|net.edges|] == net.edges)
  {
    match feature.geometry
    case OtherGeometry => (net, Continue)
    case LineString(coordinates) =>
      var p := ParseAttributes(feature.attributes);
      if p.global1 == GLOBAL_ID_EMPTY || p.global2 == GLOBAL_ID_EMPTY then (net, Continue)
      else if |coordinates| == 0 then (net, Throw(NoCoordinates))
      else
        var (net', vertex1, vertex2, global) := EndVertices(net, ids, inside, localIdMap, p, coordinates);
        if global then (net', Continue)
        else EmitLine(net', env, p.attributes, coordinates, vertex1, vertex2)
  }

  /** The features in order, until one stops the tile or throws. */
  function AddFeatures(net: Net, ids: map<int64, nat>, env: Env, inside: Coordinate -> bool,
                       localIdMap: map<int64, nat>, features: seq<Feature>): (r: (Net, Outcome))
    ensures |net.vertices| <= |r.0.vertices| && r.0.vertices[..|net.vertices|] == net.vertices
    ensures |net.edges| <= |r.0.edges| && r.0.edges[..|net.edges|] == net.edges
    decreases |features|
  {
    if features == [] then (net, Continue)
    else
      var (net', outcome) := AddFeature(net, ids, env, inside, localIdMap, features[0]);
      if outcome != Continue then (net', outcome)
      else AddFeatures(net', ids, env, inside, localIdMap, features[1..])
  }

  /** Splitting the collection anywhere: the second part runs only when the
      first ran to its end; a `return` or an exception in the first part means
      no later feature changes anything. */
  lemma {:induction false} AddFeaturesAppend(net: Net, ids: map<int64, nat>, env: Env, inside: Coordinate -> bool,
                                             localIdMap: map<int64, nat>, a: seq<Feature>, b: seq<Feature>)
    ensures var ra := AddFeatures(net, ids, env, inside, localIdMap, a);
      AddFeatures(net, ids, env, inside, localIdMap, a + b) ==
        if ra.1 == Continue then AddFeatures(ra.0, ids, env, inside, localIdMap, b) else ra
    decreases |a|
  {
    if a == [] {
      assert a + b == b;
    } else {
      assert (a + b)[0] == a[0];
      assert (a + b)[1..] == a[1..] + b;
      var (net', outcome) := AddFeature(net, ids, env, inside, localIdMap, a[0]);
      if outcome == Continue {
        AddFeaturesAppend(net', ids, env, inside, localIdMap, a[1..], b);
      }
    }
  }

  /** A feature that resolves an end through the global map adds no edge and
      does not end the tile, though each end not resolved that way still gets
      a new vertex (the local map is never written). */
  lemma GlobalEndAddsNoEdge(net: Net, ids: map<int64, nat>, env: Env, inside: Coordinate -> bool,
                            coordinates: seq<Coordinate>, attributes: seq<(string, string)>)
    requires |coordinates| > 0
    requires ParseAttributes(attributes).global1 != GLOBAL_ID_EMPTY && ParseAttributes(attributes).global2 != GLOBAL_ID_EMPTY
    requires !inside(coordinates[0]) || !inside(coordinates[|coordinates| - 1])
    requires ParseAttributes(attributes).global1 in ids || ParseAttributes(attributes).global2 in ids
    ensures var r := AddFeature(net, ids, env, inside, map[], Feature(LineString(coordinates), attributes));
      var p := ParseAttributes(attributes);
      r.1 == Continue && r.0.edges == net.edges && r.0.profiles == net.profiles && r.0.metas == net.metas &&
      |r.0.vertices| == |net.vertices| + (if p.global1 in ids then 0 else 1) + (if p.global2 in ids then 0 else 1)
  {
  }

  /** A feature whose ends both lie in the tile never reuses a vertex: its ends
      get two new vertices at the first and the last coordinate, even when the
      same ids were seen in an earlier feature, and its edge, if any, joins them. */
  lemma InsideEndsGetNewVertices(net: Net, ids: map<int64, nat>, env: Env, inside: Coordinate -> bool,
                                 coordinates: seq<Coordinate>, attributes: seq<(string, string)>)
    requires |coordinates| > 0 && inside(coordinates[0]) && inside(coordinates[|coordinates| - 1])
    requires ParseAttributes(attributes).global1 != GLOBAL_ID_EMPTY && ParseAttributes(attributes).global2 != GLOBAL_ID_EMPTY
    ensures var r := AddFeature(net, ids, env, inside, map[], Feature(LineString(coordinates), attributes));
      var n := |net.vertices|;
      |r.0.vertices| == n + 2 && r.0.vertices[n] == coordinates[0] && r.0.vertices[n + 1] == coordinates[|coordinates| - 1] &&
      (|r.0.edges| > |net.edges| ==> r.0.edges[|net.edges|].from == n && r.0.edges[|net.edges|].to == n + 1)
  {
  }
}
