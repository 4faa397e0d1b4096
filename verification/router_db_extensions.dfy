/** RouterDbExtensions: the conversion between the GlobalIdMap and the
    per-vertex GLOBAL_ID collection of the router database (EMPTY marks a
    vertex without a global id), and the order in which LoadOsmDataFromTiles
    extracts the map, adds the tiles, persists the map and normalises. */
module RouterDbExtensions {
  import opened Base
  import opened Store
  import opened DecodedTile
  import opened GlobalIds
  import opened WalkSpec
  import opened WalkGrowth
  import TileParser3

  /** The output of GlobalIdMap's enumerator for `m`: each key exactly once, with its vertex. */
  ghost predicate Enumerates(pairs: seq<(int64, nat)>, m: map<int64, nat>)
  {
    && |pairs| == |m|
    && (forall i :: 0 <= i < |pairs| ==> pairs[i].0 in m && pairs[i].1 == m[pairs[i].0])
    && (forall i, j :: 0 <= i < j < |pairs| ==> pairs[i].0 != pairs[j].0)
    && (forall g :: g in m ==> exists i :: 0 <= i < |pairs| && pairs[i].0 == g)
  }

  /** The collection after every vertex below `count` was set to EMPTY. */
  function Cleared(data: map<nat, int64>, count: nat): (r: map<nat, int64>)
    ensures forall v: nat :: v < count ==> v in r && r[v] == GLOBAL_ID_EMPTY
    ensures forall v: nat :: v >= count ==> (v in r <==> v in data) && (v in data ==> r[v] == data[v])
  {
    if count == 0 then data else Cleared(data, count - 1)[count - 1 := GLOBAL_ID_EMPTY]
  }

  /** The collection after the pairs were written in order, the global id at the pair's vertex. */
  function Written(data: map<nat, int64>, pairs: seq<(int64, nat)>): map<nat, int64>
  {
    if pairs == [] then data
    else Written(data, pairs[..|pairs| - 1])[pairs[|pairs| - 1].1 := pairs[|pairs| - 1].0]
  }

  /** The collection AddOrUpdateGlobalIds leaves for a store of `count`
      vertices and the enumeration `pairs`: created empty if absent, cleared,
      then written pair by pair. */
  function Persisted(data: Option<map<nat, int64>>, count: nat, pairs: seq<(int64, nat)>): map<nat, int64>
  {
    Written(Cleared(if data.Some? then data.value else map[], count), pairs)
  }

  /** The map ExtractGlobalIds builds from the first n vertices: Set(id, v)
      for each vertex v in increasing order whose entry is not EMPTY. */
  function ExtractFrom(data: map<nat, int64>, n: nat): (r: map<int64, nat>)
    ensures forall g :: g in r ==> g != GLOBAL_ID_EMPTY && r[g] < n && Entry(data, r[g]) == g
  {
    if n == 0 then map[]
    else
      var g := Entry(data, n - 1);
      if g == GLOBAL_ID_EMPTY then ExtractFrom(data, n - 1) else ExtractFrom(data, n - 1)[g := n - 1]
  }

  /** ExtractGlobalIds on a store of `count` vertices: empty without a
      collection; no two ids get one vertex, and every vertex is below `count`. */
  function Extracted(data: Option<map<nat, int64>>, count: nat): (r: map<int64, nat>)
    ensures data.None? ==> r == map[]
    ensures Injective(r) && forall g :: g in r ==> r[g] < count
  {
    if data.None? then map[] else ExtractFrom(data.value, count)
  }

  /** Every vertex whose entry is not EMPTY puts its id into the map. */
  lemma {:induction false} ExtractedFindsEvery(data: map<nat, int64>, n: nat, v: nat)
    requires v < n && Entry(data, v) != GLOBAL_ID_EMPTY
    ensures Entry(data, v) in ExtractFrom(data, n)
  {
    if v < n - 1 {
      ExtractedFindsEvery(data, n - 1, v);
    }
  }

  /** An id found at several vertices is mapped to the last of them, as the
      later Set overwrites the earlier. */
  lemma {:induction false} ExtractedLastWins(data: map<nat, int64>, n: nat, g: int64, w: nat)
    requires g in ExtractFrom(data, n) && ExtractFrom(data, n)[g] < w < n
    ensures Entry(data, w) != g
  {
    var last := Entry(data, n - 1);
    if w < n - 1 && last != g {
      var e := ExtractFrom(data, n - 1);
      if last == GLOBAL_ID_EMPTY {
        assert ExtractFrom(data, n) == e;
      } else {
        assert ExtractFrom(data, n) == e[last := n - 1];
      }
      ExtractedLastWins(data, n - 1, g, w);
    }
  }

  /** A vertex that no pair names keeps its entry. */
  lemma {:induction false} WrittenUntouched(data: map<nat, int64>, pairs: seq<(int64, nat)>, v: nat)
    requires forall i :: 0 <= i < |pairs| ==> pairs[i].1 != v
    ensures v in Written(data, pairs) <==> v in data
    ensures v in data ==> Written(data, pairs)[v] == data[v]
  {
    if pairs != [] {
      var front := pairs[..|pairs| - 1];
      assert forall i :: 0 <= i < |front| ==> front[i] == pairs[i];
      WrittenUntouched(data, front, v);
    }
  }

  /** The later pair wins: a vertex holds the global id of the last pair that names it. */
  lemma {:induction false} WrittenLastWins(data: map<nat, int64>, pairs: seq<(int64, nat)>, i: nat)
    requires i < |pairs| && forall j :: i < j < |pairs| ==> pairs[j].1 != pairs[i].1
    ensures pairs[i].1 in Written(data, pairs) && Written(data, pairs)[pairs[i].1] == pairs[i].0
  {
    if i < |pairs| - 1 {
      var front := pairs[..|pairs| - 1];
      assert front[i] == pairs[i];
      assert forall j :: i < j < |front| ==> front[j] == pairs[j];
      WrittenLastWins(data, front, i);
    }
  }

  /** After AddOrUpdateGlobalIds with an enumeration of the map, a vertex below
      VertexCount that no global id maps to holds EMPTY, and (when no two ids
      share a vertex) a mapped vertex holds its global id. */
  lemma PersistedAt(data: Option<map<nat, int64>>, count: nat, m: map<int64, nat>, pairs: seq<(int64, nat)>, v: nat)
    requires Enumerates(pairs, m)
    ensures v < count && (forall g :: g in m ==> m[g] != v) ==>
      Entry(Persisted(data, count, pairs), v) == GLOBAL_ID_EMPTY
    ensures Injective(m) ==> forall g :: g in m && m[g] == v ==> Entry(Persisted(data, count, pairs), v) == g
  {
    var cleared := Cleared(if data.Some? then data.value else map[], count);
    if forall i :: 0 <= i < |pairs| ==> pairs[i].1 != v {
      WrittenUntouched(cleared, pairs, v);
    }
    if Injective(m) {
      forall g | g in m && m[g] == v
        ensures Entry(Persisted(data, count, pairs), v) == g
      {
        var i :| 0 <= i < |pairs| && pairs[i].0 == g;
        forall j | i < j < |pairs|
          ensures pairs[j].1 != pairs[i].1
        {
          assert pairs[j].0 != g;
        }
        WrittenLastWins(cleared, pairs, i);
      }
    }
  }

  /** With no two ids on one vertex: every vertex below `count` holds, after
      persisting, either EMPTY or the global id that maps to it, and every
      mapped vertex holds its id. */
  lemma PersistedEntries(data: Option<map<nat, int64>>, count: nat, m: map<int64, nat>, pairs: seq<(int64, nat)>)
    requires Enumerates(pairs, m) && Injective(m)
    ensures forall v: nat :: v < count && Entry(Persisted(data, count, pairs), v) != GLOBAL_ID_EMPTY ==>
      Entry(Persisted(data, count, pairs), v) in m && m[Entry(Persisted(data, count, pairs), v)] == v
    ensures forall g :: g in m ==> Entry(Persisted(data, count, pairs), m[g]) == g
  {
    forall v: nat | v < count && Entry(Persisted(data, count, pairs), v) != GLOBAL_ID_EMPTY
      ensures Entry(Persisted(data, count, pairs), v) in m && m[Entry(Persisted(data, count, pairs), v)] == v
    {
      PersistedAt(data, count, m, pairs, v);
    }
    forall g | g in m
      ensures Entry(Persisted(data, count, pairs), m[g]) == g
    {
      PersistedAt(data, count, m, pairs, m[g]);
    }
  }

  /** Extracting a collection in which exactly the mapped vertices hold their
      ids (all others EMPTY) gives the map back. */
  lemma ExtractInverts(p: map<nat, int64>, count: nat, m: map<int64, nat>)
    requires GLOBAL_ID_EMPTY !in m && forall g :: g in m ==> m[g] < count && Entry(p, m[g]) == g
    requires forall v: nat :: v < count && Entry(p, v) != GLOBAL_ID_EMPTY ==> Entry(p, v) in m && m[Entry(p, v)] == v
    ensures ExtractFrom(p, count) == m
  {
    var r := ExtractFrom(p, count);
    forall g | g in m
      ensures g in r
    {
      ExtractedFindsEvery(p, count, m[g]);
    }
    assert r.Keys == m.Keys;
  }

  /** Round trip: for a map without the EMPTY key, injective and pointing
      below VertexCount, ExtractGlobalIds after AddOrUpdateGlobalIds gives the
      map back, whatever the collection held before. */
  lemma RoundTrip(data: Option<map<nat, int64>>, count: nat, m: map<int64, nat>, pairs: seq<(int64, nat)>)
    requires Enumerates(pairs, m) && Injective(m) && GLOBAL_ID_EMPTY !in m
    requires forall g :: g in m ==> m[g] < count
    ensures ExtractFrom(Persisted(data, count, pairs), count) == m
  {
    PersistedEntries(data, count, m, pairs);
    ExtractInverts(Persisted(data, count, pairs), count, m);
  }

  /** AddOrUpdateGlobalIds: get or create the collection, set every vertex
      below VertexCount to EMPTY, then write each enumerated pair. */
  method AddOrUpdateGlobalIds(db: RouterDb, globalIdMap: GlobalIdMap) returns (ghost pairs: seq<(int64, nat)>)
    modifies db`globalIds
    ensures Enumerates(pairs, globalIdMap.vertexPerId)
    ensures db.globalIds == Some(Persisted(old(db.globalIds), |db.vertices|, pairs))
  {
    if db.globalIds.None? {
      db.CreateGlobalIds();
    }
    ghost var base := db.globalIds.value;
    assert base == if old(db.globalIds).Some? then old(db.globalIds).value else map[];
    var v := 0;
    while v < db.VertexCount()
      invariant v <= |db.vertices|
      invariant db.globalIds == Some(Cleared(base, v))
    {
      db.SetGlobalId(v, GLOBAL_ID_EMPTY);
      v := v + 1;
    }
    ghost var cleared := Cleared(base, |db.vertices|);
    var entries := globalIdMap.Enumerate();
    var i := 0;
    while i < |entries|
      invariant i <= |entries|
      invariant db.globalIds == Some(Written(cleared, entries[..i]))
    {
      assert entries[..i + 1][..i] == entries[..i];
      var (globalId, vertex) := entries[i];
      db.SetGlobalId(vertex, globalId);
      i := i + 1;
    }
    assert entries[..|entries|] == entries;
    pairs := entries;
  }

  /** ExtractGlobalIds: a new map, filled from the collection if there is one. */
  method ExtractGlobalIds(db: RouterDb) returns (globalIdMap: GlobalIdMap)
    ensures fresh(globalIdMap)
    ensures globalIdMap.vertexPerId == Extracted(db.globalIds, |db.vertices|)
  {
    globalIdMap := new GlobalIdMap();
    if db.globalIds.None? {
      return;
    }
    ghost var data := db.globalIds.value;
    var v := 0;
    while v < db.VertexCount()
      invariant v <= |db.vertices|
      invariant globalIdMap.vertexPerId == ExtractFrom(data, v)
    {
      var globalId := db.GlobalIdAt(v);
      ghost var next := ExtractFrom(data, v + 1);
      assert next == if globalId == GLOBAL_ID_EMPTY then ExtractFrom(data, v) else ExtractFrom(data, v)[globalId := v];
      if globalId != GLOBAL_ID_EMPTY {
        globalIdMap.Set(globalId, v);
      }
      v := v + 1;
    }
  }

  /** The part of the router database a tile changes, with the map it is added with. */
  datatype Network = Network(vertices: seq<Coordinate>, edges: seq<Edge>, profiles: seq<Tags>, metas: seq<Tags>, ids: map<int64, nat>)

  /** The network and the map as they stand. */
  ghost function Current(db: RouterDb, globalIdMap: GlobalIdMap): Network
    reads db, globalIdMap
  {
    Network(db.vertices, db.edges, db.profiles, db.metas, globalIdMap.vertexPerId)
  }

  /** Every mapped vertex exists. */
  ghost predicate Mapped(net: Network)
  {
    forall k :: k in net.ids ==> net.ids[k] < |net.vertices|
  }

  /** An enumeration order of a tile's way table; a tile that was not downloaded has none. */
  ghost predicate WayOrder(tile: Option<seq<GraphObject>>, order: seq<int64>)
  {
    && (tile.None? ==> order == [])
    && (tile.Some? ==> forall i :: 0 <= i < |order| ==> order[i] in WayTable(tile.value))
  }

  /** A way order for each tile. */
  ghost predicate WayOrders(tiles: seq<Option<seq<GraphObject>>>, orders: seq<seq<int64>>)
  {
    |orders| == |tiles| && forall t :: 0 <= t < |tiles| ==> WayOrder(tiles[t], orders[t])
  }

  /** One tile added with the current builder: its ways walked in `order` from
      the network and the map as they stand. */
  ghost function TileAdded(net: Network, env: Env, tile: Option<seq<GraphObject>>, order: seq<int64>, fix: bool): (r: Network)
    requires Mapped(net) && WayOrder(tile, order)
    ensures Mapped(r)
    ensures tile.None? ==> r == net
  {
    if tile.None? then net
    else
      var w := WalkWays(Start(net.vertices, net.edges, net.profiles, net.metas, net.ids, CoreNodes(tile.value)),
                        env, NodeTable(tile.value), WayTable(tile.value), order, fix).0;
      Network(w.vertices, w.edges, w.profiles, w.metas, w.ids)
  }

  /** The tiles added one after the other, in order, each with its own way order. */
  ghost function TilesAdded(net: Network, env: Env, tiles: seq<Option<seq<GraphObject>>>, orders: seq<seq<int64>>, fix: bool): (r: Network)
    requires Mapped(net) && WayOrders(tiles, orders)
    ensures Mapped(r)
  {
    if tiles == [] then net
    else
      var last := |tiles| - 1;
      TileAdded(TilesAdded(net, env, tiles[..last], orders[..last], fix), env, tiles[last], orders[last], fix)
  }

  /** One more tile is one more TileAdded. */
  lemma TilesAddedSnoc(net: Network, env: Env, tiles: seq<Option<seq<GraphObject>>>, orders: seq<seq<int64>>,
                       tile: Option<seq<GraphObject>>, order: seq<int64>, fix: bool)
    requires Mapped(net) && WayOrders(tiles, orders)
    requires WayOrder(tile, order)
    ensures WayOrders(tiles + [tile], orders + [order])
    ensures TilesAdded(net, env, tiles + [tile], orders + [order], fix) == TileAdded(TilesAdded(net, env, tiles, orders, fix), env, tile, order, fix)
  {
    assert (tiles + [tile])[..|tiles|] == tiles;
    assert (orders + [order])[..|orders|] == orders;
  }

  /** One tile keeps every mapped id on its vertex and keeps the map injective. */
  lemma TileKeepsIds(net: Network, env: Env, tile: Option<seq<GraphObject>>, order: seq<int64>, fix: bool)
    requires Mapped(net) && Injective(net.ids) && WayOrder(tile, order)
    ensures var r := TileAdded(net, env, tile, order, fix);
      && Injective(r.ids)
      && (forall k :: k in net.ids ==> k in r.ids && r.ids[k] == net.ids[k])
  {
    if tile.Some? {
      var start := Start(net.vertices, net.edges, net.profiles, net.metas, net.ids, CoreNodes(tile.value));
      WalkWaysGrow(start, env, NodeTable(tile.value), WayTable(tile.value), order, fix);
      GrowsKeepsInjective(start, WalkWays(start, env, NodeTable(tile.value), WayTable(tile.value), order, fix).0, NodeTable(tile.value));
    }
  }

  /** A whole sequence of tiles keeps every mapped id on its vertex and keeps the map injective. */
  lemma {:induction false} TilesKeepIds(net: Network, env: Env, tiles: seq<Option<seq<GraphObject>>>, orders: seq<seq<int64>>, fix: bool)
    requires Mapped(net) && Injective(net.ids)
    requires WayOrders(tiles, orders)
    ensures var r := TilesAdded(net, env, tiles, orders, fix);
      && Injective(r.ids)
      && (forall k :: k in net.ids ==> k in r.ids && r.ids[k] == net.ids[k])
  {
    if tiles != [] {
      var last := |tiles| - 1;
      TilesKeepIds(net, env, tiles[..last], orders[..last], fix);
      TileKeepsIds(TilesAdded(net, env, tiles[..last], orders[..last], fix), env, tiles[last], orders[last], fix);
    }
  }

  /** One tile added with the current builder and the shared map: the network
      and the map are the tile's walk, the collection and the normalisation
      requests are untouched. */
  method AddTile(db: RouterDb, globalIdMap: GlobalIdMap, env: Env, tile: Option<seq<GraphObject>>, fix: bool)
    returns (ghost order: seq<int64>)
    requires Mapped(Current(db, globalIdMap))
    modifies db`vertices, db`edges, db`profiles, db`metas, globalIdMap
    ensures WayOrder(tile, order)
    ensures Current(db, globalIdMap) == TileAdded(old(Current(db, globalIdMap)), env, tile, order, fix)
  {
    var updated;
    updated, order := TileParser3.AddOsmTile(db, globalIdMap, env, tile, fix);
  }

  /** AddOrUpdateGlobalIds at the end of a load: the collection then extracts
      to the map itself, when the map is injective, points into the store and
      has no EMPTY key. */
  method PersistGlobalIds(db: RouterDb, globalIdMap: GlobalIdMap)
    modifies db`globalIds
    ensures var m := globalIdMap.vertexPerId;
      Injective(m) && GLOBAL_ID_EMPTY !in m && (forall g :: g in m ==> m[g] < |db.vertices|) ==>
        Extracted(db.globalIds, |db.vertices|) == m
  {
    ghost var pairs := AddOrUpdateGlobalIds(db, globalIdMap);
    ghost var m := globalIdMap.vertexPerId;
    if Injective(m) && GLOBAL_ID_EMPTY !in m && (forall g :: g in m ==> m[g] < |db.vertices|) {
      RoundTrip(old(db.globalIds), |db.vertices|, m, pairs);
    }
  }

  /** The loop over the downloaded tiles: each is added, in order, with the shared map. */
  method AddTiles(db: RouterDb, globalIdMap: GlobalIdMap, env: Env, tiles: seq<Option<seq<GraphObject>>>, fix: bool)
    returns (ghost orders: seq<seq<int64>>)
    requires Mapped(Current(db, globalIdMap))
    modifies db`vertices, db`edges, db`profiles, db`metas, globalIdMap
    ensures WayOrders(tiles, orders)
    ensures Current(db, globalIdMap) == TilesAdded(old(Current(db, globalIdMap)), env, tiles, orders, fix)
  {
    ghost var net0 := Current(db, globalIdMap);
    orders := [];
    var t := 0;
    while t < |tiles|
      invariant t <= |tiles| && WayOrders(tiles[..t], orders)
      invariant Current(db, globalIdMap) == TilesAdded(net0, env, tiles[..t], orders, fix)
    {
      var order := AddTile(db, globalIdMap, env, tiles[t], fix);
      assert tiles[..t + 1] == tiles[..t] + [tiles[t]];
      TilesAddedSnoc(net0, env, tiles[..t], orders, tiles[t], order, fix);
      orders := orders + [order];
      t := t + 1;
    }
    assert tiles[..t] == tiles;
  }

  /** The end of a load: persist the map when keepGlobalIds holds, then request
      Sort, OptimizeNetwork and Compress. */
  method FinishLoad(db: RouterDb, globalIdMap: GlobalIdMap, keepGlobalIds: bool)
    modifies db`globalIds, db`normalization
    ensures db.normalization == old(db.normalization) + [Sort, OptimizeNetwork, Compress]
    ensures !keepGlobalIds ==> db.globalIds == old(db.globalIds)
    ensures var m := globalIdMap.vertexPerId;
      keepGlobalIds && Injective(m) && GLOBAL_ID_EMPTY !in m && (forall g :: g in m ==> m[g] < |db.vertices|) ==>
        Extracted(db.globalIds, |db.vertices|) == m
  {
    if keepGlobalIds {
      PersistGlobalIds(db, globalIdMap);
    }
    db.Normalize(Sort);
    db.Normalize(OptimizeNetwork);
    db.Normalize(Compress);
  }

  /** LoadOsmDataFromTiles over the downloaded documents of the tile range, in
      order: extract the map once, add every tile with it, persist it when
      keepGlobalIds holds, then request Sort, OptimizeNetwork and Compress.
      `ids` is the map after the last tile, `orders` the way order of each tile. */
  method LoadOsmDataFromTiles(db: RouterDb, env: Env, tiles: seq<Option<seq<GraphObject>>>, keepGlobalIds: bool, fix: bool)
    returns (ghost ids: map<int64, nat>, ghost orders: seq<seq<int64>>)
    modifies db
    ensures WayOrders(tiles, orders)
    ensures var net := TilesAdded(Network(old(db.vertices), old(db.edges), old(db.profiles), old(db.metas),
                                          old(Extracted(db.globalIds, |db.vertices|))), env, tiles, orders, fix);
      db.vertices == net.vertices && db.edges == net.edges && db.profiles == net.profiles && db.metas == net.metas && ids == net.ids
    ensures db.normalization == old(db.normalization) + [Sort, OptimizeNetwork, Compress]
    ensures !keepGlobalIds ==> db.globalIds == old(db.globalIds)
    ensures Injective(ids) && forall k :: k in ids ==> ids[k] < |db.vertices|
    ensures forall k :: k in old(Extracted(db.globalIds, |db.vertices|)) ==>
      k in ids && ids[k] == old(Extracted(db.globalIds, |db.vertices|))[k]
    ensures keepGlobalIds && GLOBAL_ID_EMPTY !in ids ==> Extracted(db.globalIds, |db.vertices|) == ids
  {
    var globalIdMap := ExtractGlobalIds(db);
    ghost var net0 := Current(db, globalIdMap);
    assert net0 == Network(old(db.vertices), old(db.edges), old(db.profiles), old(db.metas), old(Extracted(db.globalIds, |db.vertices|)));
    orders := AddTiles(db, globalIdMap, env, tiles, fix);
    TilesKeepIds(net0, env, tiles, orders, fix);
    ids := globalIdMap.vertexPerId;
    FinishLoad(db, globalIdMap, keepGlobalIds);
  }
}
