/** GeoJsonTileParser.AddOsmTile as the imperative loader it is: a loop over
    the features of the collection that adds vertices, profiles, metas and
    edges to the router database in place, reading but never writing the
    GlobalIdMap. Each step is proved to do what GeoJsonSpec prescribes. */
module GeoJsonTileParser {
  import opened Base
  import opened Store
  import opened TagClassifier
  import opened GlobalIds
  import opened GeoJsonSpec

  /** The part of the router database the loader changes. */
  ghost function NetOf(db: RouterDb): Net
    reads db
  {
    Net(db.vertices, db.edges, db.profiles, db.metas)
  }

  /** AddOsmTile on a downloaded and deserialised collection (None when the
      download failed): the features in order, with the local id map created
      empty; a `return` ends the tile normally, an exception is the failure. */
  method AddOsmTile(db: RouterDb, ids: GlobalIdMap, env: Env, inside: Coordinate -> bool, features: Option<seq<Feature>>)
    returns (failure: Option<GeoFailure>)
    modifies db`vertices, db`edges, db`profiles, db`metas
    ensures features.None? ==> failure.None? && unchanged(db)
    ensures features.Some? ==>
      var r := AddFeatures(old(NetOf(db)), ids.vertexPerId, env, inside, map[], features.value);
      NetOf(db) == r.0 && failure == (if r.1.Throw? then Some(r.1.failure) else None)
  {
    if features.None? {
      return None;
    }
    var localIdMap: map<int64, nat> := map[];
    var all := features.value;
    ghost var final := AddFeatures(NetOf(db), ids.vertexPerId, env, inside, localIdMap, all);
    var i := 0;
    while i < |all|
      invariant i <= |all|
      invariant AddFeatures(NetOf(db), ids.vertexPerId, env, inside, localIdMap, all[i..]) == final
    {
      assert all[i..][1..] == all[i + 1..];
      var outcome := AddFeature(db, ids, env, inside, localIdMap, all[i]);
      if outcome.Stop? {
        return None;
      }
      if outcome.Throw? {
        return Some(outcome.failure);
      }
      i := i + 1;
    }
    failure := None;
  }

  /** One feature: skip anything but a line string, parse the attribute table,
      skip a feature without both vertex ids, resolve both ends, skip a feature
      with an end from the global map, then the profile, meta and edge. */
  method AddFeature(db: RouterDb, ids: GlobalIdMap, env: Env, inside: Coordinate -> bool,
                    localIdMap: map<int64, nat>, feature: Feature)
    returns (outcome: Outcome)
    modifies db`vertices, db`edges, db`profiles, db`metas
    ensures (NetOf(db), outcome) == GeoJsonSpec.AddFeature(old(NetOf(db)), ids.vertexPerId, env, inside, localIdMap, feature)
  {
    if !feature.geometry.LineString? {
      return Continue;
    }
    var lineString := feature.geometry.coordinates;
    var attributes, global1, global2 := ParseFeatureAttributes(feature.attributes);
    if global1 == GLOBAL_ID_EMPTY || global2 == GLOBAL_ID_EMPTY {
      return Continue;
    }
    if |lineString| == 0 {
      return Throw(NoCoordinates);
    }
    var vertex1Location, vertex2Location := lineString[0], lineString[|lineString| - 1];
    var vertex1Outside, vertex2Outside := !inside(vertex1Location), !inside(vertex2Location);
    var vertex1, vertex1Global := ResolveVertex(db, ids, vertex1Outside || vertex2Outside, global1, localIdMap, global1, vertex1Location);
    var vertex2, vertex2Global := ResolveVertex(db, ids, vertex1Outside || vertex2Outside, global2, localIdMap, global1, vertex2Location);
    if vertex1Global || vertex2Global {
      return Continue;
    }
    outcome := AddLine(db, env, attributes, lineString, vertex1, vertex2);
  }

  /** The attribute loop: the vertex ids through TryParseGlobalId (with the
      inverted test), every other entry through TryParseAttributeValue. */
  method ParseFeatureAttributes(entries: seq<(string, string)>) returns (attributes: Tags, global1: int64, global2: int64)
    ensures Parsed(attributes, global1, global2) == ParseAttributes(entries)
  {
    attributes, global1, global2 := map[], GLOBAL_ID_EMPTY, GLOBAL_ID_EMPTY;
    var i := 0;
    while i < |entries|
      invariant i <= |entries|
      invariant Parsed(attributes, global1, global2) == ParseAttributes(entries[..i])
    {
      assert entries[..i + 1][..i] == entries[..i];
      var (name, value) := entries[i];
      if name == VERTEX1_ATTRIBUTE {
        var (ok, id) := TryParseGlobalId(value);
        global1 := id;
        if ok {
          global1 := GLOBAL_ID_EMPTY;
        }
      } else if name == VERTEX2_ATTRIBUTE {
        var (ok, id) := TryParseGlobalId(value);
        global2 := id;
        if ok {
          global2 := GLOBAL_ID_EMPTY;
        }
      } else {
        var (ok, v) := TryParseAttributeValue(value);
        if ok {
          attributes := attributes[name := v];
        }
      }
      i := i + 1;
    }
    assert entries[..|entries|] == entries;
  }

  /** One end: TryGet only when an end lies outside the tile; on a miss the
      local map under `localKey`, and on a miss there a new vertex at VertexCount. */
  method ResolveVertex(db: RouterDb, ids: GlobalIdMap, outside: bool, global: int64, localIdMap: map<int64, nat>,
                       localKey: int64, location: Coordinate)
    returns (vertex: nat, isGlobal: bool)
    modifies db`vertices
    ensures (NetOf(db), vertex, isGlobal) == Endpoint(old(NetOf(db)), ids.vertexPerId, outside, global, localIdMap, localKey, location)
  {
    isGlobal := false;
    if outside {
      isGlobal, vertex := ids.TryGet(global);
    }
    if isGlobal {
      return;
    }
    if localKey in localIdMap {
      vertex := localIdMap[localKey];
    } else {
      vertex := db.VertexCount();
      db.AddVertex(vertex, location);
    }
  }

  /** Profile and meta of the feature's attributes, then the edge with the
      distance and shape of the line string. */
  method AddLine(db: RouterDb, env: Env, attributes: Tags, lineString: seq<Coordinate>, vertex1: nat, vertex2: nat)
    returns (outcome: Outcome)
    modifies db`edges, db`profiles, db`metas
    ensures (NetOf(db), outcome) == EmitLine(old(NetOf(db)), env, attributes, lineString, vertex1, vertex2)
  {
    var whitelist := env.vehicles.whitelist(attributes);
    if whitelist.None? {
      return Continue;
    }
    var profileTags, metaTags := SplitTags(env.vehicles, attributes, whitelist.value);
    if !env.vehicles.anyCanTraverse(profileTags) {
      return Stop;
    }
    var profile := db.AddProfile(profileTags);
    if profile > env.maxProfileCount {
      return Throw(ProfileLimit);
    }
    var meta := db.AddMeta(metaTags);
    var shape, distance, complete := LineShape(env, lineString);
    if !complete {
      return Throw(ShortLine);
    }
    db.AddEdge(vertex1, vertex2, distance, profile, meta, shape);
    outcome := Continue;
  }

  /** The shape loop: every coordinate is added and the estimate from the
      previous one summed; then the first and the last point are removed, which
      fails (RemoveAt on an index out of range) for fewer than two coordinates. */
  method LineShape(env: Env, coordinates: seq<Coordinate>) returns (shape: seq<Coordinate>, distance: nat, complete: bool)
    ensures complete <==> |coordinates| >= 2
    ensures complete ==> shape == coordinates[1..|coordinates| - 1] && distance == ChainLength(env.estimate, coordinates)
  {
    shape, distance := [], 0;
    var i := 0;
    while i < |coordinates|
      invariant i <= |coordinates|
      invariant shape == coordinates[..i]
      invariant distance == ChainLength(env.estimate, shape)
    {
      var shapePoint := coordinates[i];
      if i > 0 {
        ChainSnoc(env.estimate, shape, shapePoint);
        distance := distance + env.estimate(shape[|shape| - 1], shapePoint);
      }
      shape := shape + [shapePoint];
      i := i + 1;
    }
    assert shape == coordinates;
    if |shape| == 0 {
      return shape, distance, false;
    }
    shape := shape[1..];
    if |shape| == 0 {
      return shape, distance, false;
    }
    shape := shape[..|shape| - 1];
    complete := true;
  }
}
