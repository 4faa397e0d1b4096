# Tile graph assembly of itinero-io-osm-tiles, modelled in Dafny

Itinero's routable-tiles loader turns tiles of OpenStreetMap data into a
routing network (a `RouterDb`). Each tile is a set of nodes and ways. A
`GlobalIdMap` from 64-bit global node ids to network vertices lets a node
shared by two tiles get a single vertex. This project models:

- **TileParser3.AddOsmTile**, the current builder. It runs in three steps:
  - the core-node pass (way ends are core, and an interior node becomes core
    when it is seen a second time);
  - the segment walk, with the `previousVertex` cursor, the `shape` buffer and
    the `updated` flag;
  - `AddProfileAndMeta` and `Distance`.
- **TileParser.AddOsmTile**, the earlier builder. Only a way's ends get
  vertices, and the way is split at every interior node the map already knows.
- **GeoJsonTileParser.AddOsmTile**, which gives one edge per LineString
  feature, together with its two parser stubs.
- **GlobalIdMap**: `Set`, `TryGet` and enumeration.
- **RouterDbExtensions**:
  - `ExtractGlobalIds` and `AddOrUpdateGlobalIds`, which move the map to and
    from the per-vertex `GLOBAL_ID` data. That data holds `GLOBAL_ID_EMPTY`
    for a vertex with no id;
  - the order of steps in `LoadOsmDataFromTiles`.

The loaders change the database step by step, so each is an imperative method
on the `Store.RouterDb` and `GlobalIds.GlobalIdMap` classes. Each method is
proved equal to a functional specification on values:

- `WalkSpec` specifies the segment walk;
- `TileParserSpec` specifies the earlier builder;
- `GeoJsonSpec` specifies the GeoJSON builder;
- `RouterDbExtensions.Persisted` and `RouterDbExtensions.Extracted` specify
  the global-id conversions.

The properties are proved as lemmas about these specifications:

- `WalkGrowth`: vertices are deduplicated and the store is only appended to;
- `WalkCursor`: the cursor sits only on the vertex of a core in-tile node,
  and nothing is buffered without it, in both walks;
- `WalkShapes`: no edge's shape contains its own end nodes;
- `WalkProperties`: boundary segments, skipped ways, and the shape defect
  below;
- `DecodedTile`: the core-node set;
- `RouterDbExtensions`: the global-id round trip.

The walk of TileParser3 is specified twice. `fix = false` is the walk as
written, and `fix = true` is the corrected walk (see Findings). The imperative
`TileParser3` methods take the same flag, so `fix = false` runs the code as
written.

The collaborators are parameters of the model, collected in `Base.Env`:

- the vehicle whitelist and traversal predicates;
- the distance estimate, as an uninterpreted function to `nat`;
- the profile limit `MAX_PROFILE_COUNT`;
- the per-node "in tile" flag.

`EdgeProfiles.Add` and `EdgeMeta.Add` are interning into a sequence
(`Store.Intern`). A vertex handle is its index in `RouterDb.vertices`.

## Model

The step functions of the TileParser3 walk in `WalkSpec` (EmitEdge, Open,
Promote, Node1, Node2, Segment, NodeSteps, HeadStep, Segments) state only
that they keep the store well formed. What each step guarantees is proved
beside them: growth of the store and the map in `WalkGrowth`, the cursor
discipline in `WalkCursor`, edge shapes in `WalkShapes`, and the remaining
properties of single steps and whole tiles in `WalkProperties`.

| member | source | states |
|---|---|---|
| GlobalIds.GlobalIdMap.constructor | src/Itinero.IO.Osm.Tiles/GlobalIdMap.cs:29 | A new map is empty. |
| GlobalIds.GlobalIdMap.Set | src/Itinero.IO.Osm.Tiles/GlobalIdMap.cs:36-39 | After Set(g, v), g maps to v. The last write for a key wins. Every other key keeps both its presence and its vertex. |
| GlobalIds.GlobalIdMap.TryGet | src/Itinero.IO.Osm.Tiles/GlobalIdMap.cs:47-50 | Returns true exactly when the key is present, with its vertex. A missing key gives false and 0. The map is not changed. |
| GlobalIds.GlobalIdMap.Enumerate | src/Itinero.IO.Osm.Tiles/GlobalIdMap.cs:52-58 | The enumeration yields each key exactly once, paired with its current vertex, and yields nothing else. |
| Store.Intern | src/Itinero.IO.Osm.Tiles/Parsers/TileParser3.cs:350-373 | Interning returns an id that holds the given tags. A known collection keeps the table; a new one is appended with id equal to the old count. |
| Store.InternExtends | src/Itinero.IO.Osm.Tiles/Parsers/TileParser3.cs:350-373 | Interning never removes or renumbers an entry. |
| Store.InternIdempotent | src/Itinero.IO.Osm.Tiles/Parsers/TileParser3.cs:350-373 | Interning the same tags twice gives the same id and the same table. |
| Store.RouterDb.AddVertex | src/Itinero.IO.Osm.Tiles/Parsers/TileParser3.cs:207-211 | AddVertex at VertexCount appends the location. |
| Store.RouterDb.AddEdge | src/Itinero.IO.Osm.Tiles/Parsers/TileParser3.cs:222-228 | AddEdge appends one edge with the given ends, distance, profile, meta and shape. |
| Store.RouterDb.AddProfile | src/Itinero.IO.Osm.Tiles/Parsers/TileParser3.cs:350 | EdgeProfiles.Add interns the profile tags. |
| Store.RouterDb.AddMeta | src/Itinero.IO.Osm.Tiles/Parsers/TileParser3.cs:373 | EdgeMeta.Add interns the meta tags. |
| Store.RouterDb.CreateGlobalIds | src/Itinero.IO.Osm.Tiles/RouterDbExtensions.cs:87-90 | VertexData.AddInt64 creates an empty per-vertex collection. |
| Store.RouterDb.SetGlobalId | src/Itinero.IO.Osm.Tiles/RouterDbExtensions.cs:95 | Writing one vertex's entry changes that entry only. |
| Store.RouterDb.Normalize | src/Itinero.IO.Osm.Tiles/RouterDbExtensions.cs:71-77 | Each call records one step (Sort, OptimizeNetwork or Compress) after the earlier ones. |
| Base.ChainOfTwo | src/Itinero.IO.Osm.Tiles/Parsers/TileParser3.cs:378-396 | With an empty shape, the chained distance is one estimate, from vertex1 to vertex2. |
| Base.ChainSnoc | src/Itinero.IO.Osm.Tiles/Parsers/TileParser3.cs:385-393 | Adding a point to the chain adds the estimate of the new leg. |
| TagClassifier.ProfilePart | src/Itinero.IO.Osm.Tiles/Parsers/TileParser3.cs:326-340 | The profile tags are a subset of the way's tags. |
| TagClassifier.MetaPart | src/Itinero.IO.Osm.Tiles/Parsers/TileParser3.cs:326-340 | The meta tags are a subset of the way's tags. |
| TagClassifier.SplitIsPartition | src/Itinero.IO.Osm.Tiles/Parsers/TileParser3.cs:326-340 | The profile and meta parts are disjoint and keep their values. A tag goes to the profile part exactly when it is on the way's whitelist. Otherwise it goes to the meta part exactly when it is on the profile or meta whitelist. Otherwise it is dropped. |
| TagClassifier.SplitTags | src/Itinero.IO.Osm.Tiles/Parsers/TileParser3.cs:326-340 | The loop over the tags fills exactly the profile part and the meta part. |
| DecodedTile.WayTableFromGraph | src/Itinero.IO.Osm.Tiles/Parsers/TileParser3.cs:86-141 | Every entry of waysData comes from a way object of the graph with that id. |
| DecodedTile.WayRefs | src/Itinero.IO.Osm.Tiles/Parsers/TileParser3.cs:117-139 | A way's node sightings are in node order. A sighting is marked as an end exactly for the first and the last node. |
| DecodedTile.RefsAppend | src/Itinero.IO.Osm.Tiles/Parsers/TileParser3.cs:62-148 | The sightings of two parts of the graph are the sightings of the first part followed by those of the second. |
| DecodedTile.WayRefsInside | src/Itinero.IO.Osm.Tiles/Parsers/TileParser3.cs:62-148 | The sightings of a way sit in the whole graph's sightings at that way's offset. |
| DecodedTile.PassSeesAll | src/Itinero.IO.Osm.Tiles/Parsers/TileParser3.cs:127-138 | After the pass, the `nodes` set is exactly the set of sighted nodes. |
| DecodedTile.PassCore | src/Itinero.IO.Osm.Tiles/Parsers/TileParser3.cs:127-138 | A node is core exactly when it was sighted as a way end or sighted twice. The second sighting may be in any way and at any position. |
| DecodedTile.PassCoreFromFront | src/Itinero.IO.Osm.Tiles/Parsers/TileParser3.cs:127-138 | An end or a repeat seen in a prefix of the sightings stays seen. The last sighting adds an end or a repeat. |
| DecodedTile.PassCoreToFront | src/Itinero.IO.Osm.Tiles/Parsers/TileParser3.cs:127-138 | An end or a repeat comes from the prefix or from the last sighting. |
| DecodedTile.WayEndsAreCore | src/Itinero.IO.Osm.Tiles/Parsers/TileParser3.cs:127-131 | The first and the last node of every way are core. |
| DecodedTile.WayRepeatsAreCore | src/Itinero.IO.Osm.Tiles/Parsers/TileParser3.cs:132-136 | A node that occurs twice in one way is core. |
| DecodedTile.TableRepeatsAreCore | src/Itinero.IO.Osm.Tiles/Parsers/TileParser3.cs:132-141 | Every node that occurs twice in a way of waysData is core. |
| TileParser3.PassSnoc | src/Itinero.IO.Osm.Tiles/Parsers/TileParser3.cs:117-139 | One more sighting is one more Visit step of the pass. |
| TileParser3.ReadGraph | src/Itinero.IO.Osm.Tiles/Parsers/TileParser3.cs:62-148 | The graph loop yields exactly nodeLocations, waysData and the core set of the decoded tile. A way object without an array of nodes is skipped and sights no node. |
| TileParser3.ReadWayNodes | src/Itinero.IO.Osm.Tiles/Parsers/TileParser3.cs:117-139 | The loop over one way's nodes extends the pass by exactly that way's sightings. |
| WalkSpec.ProfileAndMeta | src/Itinero.IO.Osm.Tiles/Parsers/TileParser3.cs:315-376 | The sentinel is returned exactly when the whitelist rejects or no vehicle can traverse the profile tags, and then both dictionaries are unchanged. The overflow outcome comes exactly when the tags are accepted and the interned profile id exceeds MAX_PROFILE_COUNT; then the profile stays interned and the meta dictionary is unchanged. Otherwise the ids hold the profile part and the meta part, and the profile id is at most MAX_PROFILE_COUNT. |
| WalkSpec.EnsureVertex | src/Itinero.IO.Osm.Tiles/Parsers/TileParser3.cs:204-214 | The node's vertex is registered in the global-id map. |
| WalkSpec.EmitEdge | src/Itinero.IO.Osm.Tiles/Parsers/TileParser3.cs:217-231 | Adding an edge keeps every mapped vertex and the cursor within the store. |
| WalkSpec.Open | src/Itinero.IO.Osm.Tiles/Parsers/TileParser3.cs:234-238 | Opening the cursor keeps the state well formed. |
| WalkSpec.Promote | src/Itinero.IO.Osm.Tiles/Parsers/TileParser3.cs:197-201 | Promoting both ends of a crossing segment to core keeps the state well formed. |
| WalkSpec.Node1 | src/Itinero.IO.Osm.Tiles/Parsers/TileParser3.cs:204-240 | The node1 step keeps the state well formed. |
| WalkSpec.Node2 | src/Itinero.IO.Osm.Tiles/Parsers/TileParser3.cs:243-293 | The node2 step keeps the state well formed. |
| WalkSpec.Segment | src/Itinero.IO.Osm.Tiles/Parsers/TileParser3.cs:171-302 | One pass of the segment loop keeps the state well formed. |
| WalkSpec.NodeSteps | src/Itinero.IO.Osm.Tiles/Parsers/TileParser3.cs:197-300 | The node steps of an accepted segment keep the state well formed. |
| WalkSpec.HeadStep | src/Itinero.IO.Osm.Tiles/Parsers/TileParser3.cs:197-240 | Promotion followed by the node1 step keeps the state well formed. |
| WalkSpec.Segments | src/Itinero.IO.Osm.Tiles/Parsers/TileParser3.cs:171-302 | The first n segments keep the state well formed. |
| WalkSpec.SegmentsStopped | src/Itinero.IO.Osm.Tiles/Parsers/TileParser3.cs:177-189 | Once the loop has broken off or aborted, the later segments change nothing. |
| WalkSpec.SegmentsNext | src/Itinero.IO.Osm.Tiles/Parsers/TileParser3.cs:171-302 | While the loop goes on, one more segment is one more Segment step. |
| WalkSpec.WalkWay | src/Itinero.IO.Osm.Tiles/Parsers/TileParser3.cs:151-303 | A way keeps the state well formed. A missing node (`break`) ends only this way. |
| WalkSpec.WalkWayFinish | src/Itinero.IO.Osm.Tiles/Parsers/TileParser3.cs:171-303 | A segment loop that has run out of segments, or stopped early, has walked the whole way. |
| WalkSpec.WalkWayUnfold | src/Itinero.IO.Osm.Tiles/Parsers/TileParser3.cs:154-171 | A way of two nodes or more is the reset followed by all its segments. |
| WalkSpec.WalkWays | src/Itinero.IO.Osm.Tiles/Parsers/TileParser3.cs:150-303 | The walk of all ways never ends in a Break, so a missing node never stops later ways. |
| WalkGrowth.GrowsThenWalkFields | src/Itinero.IO.Osm.Tiles/Parsers/TileParser3.cs:150-303 | A step that leaves the store and the map alone and only adds core nodes keeps the growth relation. |
| WalkGrowth.GrowsKeepsInjective | src/Itinero.IO.Osm.Tiles/Parsers/TileParser3.cs:207-214 | Growth keeps the global-id map injective, so no two ids share a vertex. |
| WalkGrowth.GrowsWhenStoreKept | src/Itinero.IO.Osm.Tiles/Parsers/TileParser3.cs:150-303 | A step that changes only the shape, the cursor and the core set is growth. |
| WalkGrowth.EnsureVertexGrows | src/Itinero.IO.Osm.Tiles/Parsers/TileParser3.cs:207-214 | A vertex is created only for an unmapped id. Its handle is the old VertexCount, it is registered at once, and `updated` is set. |
| WalkGrowth.EmitEdgeGrows | src/Itinero.IO.Osm.Tiles/Parsers/TileParser3.cs:222-230 | Emitting an edge appends to the edges, sets `updated`, and keeps the map. |
| WalkGrowth.Node1Grows | src/Itinero.IO.Osm.Tiles/Parsers/TileParser3.cs:204-240 | The node1 step is growth. |
| WalkGrowth.Node2Grows | src/Itinero.IO.Osm.Tiles/Parsers/TileParser3.cs:243-293 | The node2 step is growth. |
| WalkGrowth.HeadGrows | src/Itinero.IO.Osm.Tiles/Parsers/TileParser3.cs:197-240 | Promotion followed by the node1 step is growth. |
| WalkGrowth.AcceptedGrows | src/Itinero.IO.Osm.Tiles/Parsers/TileParser3.cs:197-300 | The node steps of an accepted segment are growth. |
| WalkGrowth.GrowsThenAccepted | src/Itinero.IO.Osm.Tiles/Parsers/TileParser3.cs:192-300 | Interning followed by the node steps is growth. |
| WalkGrowth.SegmentGrows | src/Itinero.IO.Osm.Tiles/Parsers/TileParser3.cs:171-302 | Every segment is growth. |
| WalkGrowth.ProfileAndMetaExtends | src/Itinero.IO.Osm.Tiles/Parsers/TileParser3.cs:350-373 | AddProfileAndMeta only appends to the two dictionaries. |
| WalkGrowth.SegmentsInduction | src/Itinero.IO.Osm.Tiles/Parsers/TileParser3.cs:171-302 | A property that each segment preserves holds after any number of segments. |
| WalkGrowth.SegmentsGrow | src/Itinero.IO.Osm.Tiles/Parsers/TileParser3.cs:171-302 | The segment loop of a way is growth. |
| WalkGrowth.WalkWayGrows | src/Itinero.IO.Osm.Tiles/Parsers/TileParser3.cs:151-303 | A way is growth. |
| WalkGrowth.WalkWaysGrow | src/Itinero.IO.Osm.Tiles/Parsers/TileParser3.cs:150-303 | The whole walk is growth. The map never gains two handles for one id and keeps every id it had. Every new vertex belongs to a new id of a tile node and sits at that node's location. `updated` is set exactly when something was added. |
| WalkShapes.CoreNotBuffered | src/Itinero.IO.Osm.Tiles/Parsers/TileParser3.cs:296-300 | A core node is never in the shape buffer. |
| WalkShapes.RepeatsCoreGrows | src/Itinero.IO.Osm.Tiles/Parsers/TileParser3.cs:197-201 | A growing core set keeps every repeated node core. |
| WalkShapes.TraceMatchesGrows | src/Itinero.IO.Osm.Tiles/Parsers/TileParser3.cs:207-214 | Adding vertices and ids keeps every emitted edge matching its nodes. |
| WalkShapes.CoreHeadEmptiesBuffer | src/Itinero.IO.Osm.Tiles/Parsers/TileParser3.cs:204-240 | When node1 is already core, the shape buffer is empty. |
| WalkShapes.BufferEndsAtHead | src/Itinero.IO.Osm.Tiles/Parsers/TileParser3.cs:296-300 | With a cursor open, the last buffered node is the current node1. |
| WalkShapes.EnsureVertexKeeps | src/Itinero.IO.Osm.Tiles/Parsers/TileParser3.cs:207-214 | Creating a core node's vertex keeps the walk invariant. |
| WalkShapes.EmitKeeps | src/Itinero.IO.Osm.Tiles/Parsers/TileParser3.cs:217-231 | Closing an edge between two mapped nodes, neither of them buffered, keeps the invariant. The new edge is exclusive and matches its nodes. |
| WalkShapes.PromoteKeeps | src/Itinero.IO.Osm.Tiles/Parsers/TileParser3.cs:197-201 | In the corrected walk, promotion leaves both ends of the segment outside the buffer. |
| WalkShapes.DroppedBufferNotCore | src/Itinero.IO.Osm.Tiles/Parsers/TileParser3.cs:197-201 | A node1 that only now becomes core is the last buffered node. No earlier buffered node is either end of the segment. |
| WalkShapes.BufferDropLast | src/Itinero.IO.Osm.Tiles/Parsers/TileParser3.cs:197-201 | Dropping the last buffered point keeps the buffer free of core nodes. |
| WalkShapes.Node1Keeps | src/Itinero.IO.Osm.Tiles/Parsers/TileParser3.cs:204-240 | After the node1 step, an open cursor sits on node1, the buffer is empty, and the invariant holds. |
| WalkShapes.Node2Keeps | src/Itinero.IO.Osm.Tiles/Parsers/TileParser3.cs:243-293 | The node2 step of a core node2 keeps the invariant. The cursor is opened only on an in-tile node. |
| WalkShapes.AppendKeeps | src/Itinero.IO.Osm.Tiles/Parsers/TileParser3.cs:296-300 | A non-core node2 is buffered only behind an open cursor. |
| WalkShapes.HeadKeeps | src/Itinero.IO.Osm.Tiles/Parsers/TileParser3.cs:197-240 | Promotion followed by the node1 step of the corrected walk keeps the invariant. |
| WalkShapes.AcceptedKeeps | src/Itinero.IO.Osm.Tiles/Parsers/TileParser3.cs:197-300 | The node steps of an accepted segment keep the invariant. |
| WalkShapes.SegmentKeeps | src/Itinero.IO.Osm.Tiles/Parsers/TileParser3.cs:171-302 | One segment of the corrected walk keeps the invariant. A rejected segment leaves no cursor. |
| WalkShapes.SegmentsKeep | src/Itinero.IO.Osm.Tiles/Parsers/TileParser3.cs:171-302 | The segment loop keeps the invariant and only grows the core set. |
| WalkShapes.WalkWayKeeps | src/Itinero.IO.Osm.Tiles/Parsers/TileParser3.cs:151-303 | A way keeps the invariant. |
| WalkShapes.WalkWaysKeep | src/Itinero.IO.Osm.Tiles/Parsers/TileParser3.cs:150-303 | The whole corrected walk keeps the cursor discipline, the buffer of non-core locations, and exclusive edges. |
| WalkShapes.TileEdgesExclusive | src/Itinero.IO.Osm.Tiles/Parsers/TileParser3.cs:150-303 | For a decoded tile, every edge of the corrected walk joins the vertices of two nodes and carries the locations of the nodes in between. Neither end node is among those shape points. |
| WalkCursor.EnsureVertexDisciplined | src/Itinero.IO.Osm.Tiles/Parsers/TileParser3.cs:204-214 | Creating a vertex keeps the cursor discipline, the cursor, the buffer and every mapping. |
| WalkCursor.Node1Disciplined | src/Itinero.IO.Osm.Tiles/Parsers/TileParser3.cs:204-240 | The node1 step of a core node1 keeps the cursor discipline and the core set. |
| WalkCursor.Node2Disciplined | src/Itinero.IO.Osm.Tiles/Parsers/TileParser3.cs:243-293 | The node2 step of a core node2, crossing or not, keeps the cursor discipline and the core set. |
| WalkCursor.NodeStepsDisciplined | src/Itinero.IO.Osm.Tiles/Parsers/TileParser3.cs:197-300 | The node steps of an accepted segment keep the cursor discipline in either walk. |
| WalkCursor.SegmentDisciplined | src/Itinero.IO.Osm.Tiles/Parsers/TileParser3.cs:171-302 | One segment, as written or corrected, keeps the map injective and pointing into the store, the cursor on the vertex of a core in-tile node, and no buffer without a cursor. |
| WalkCursor.SegmentsDisciplined | src/Itinero.IO.Osm.Tiles/Parsers/TileParser3.cs:171-302 | The segment loop of a way keeps the cursor discipline and only grows the core set. |
| WalkCursor.WalkWayDisciplined | src/Itinero.IO.Osm.Tiles/Parsers/TileParser3.cs:151-303 | A way starts from a closed cursor and an empty buffer and keeps the cursor discipline. |
| WalkCursor.WalkWaysDisciplined | src/Itinero.IO.Osm.Tiles/Parsers/TileParser3.cs:150-303 | The walk of all ways, as written or corrected, keeps the cursor discipline. |
| WalkCursor.TileCursorDiscipline | src/Itinero.IO.Osm.Tiles/Parsers/TileParser3.cs:150-303 | Over a decoded tile, from an injective map into the store, either walk ends with the map injective and pointing into the store, any open cursor on the vertex of a core node inside the tile, and no buffered shape point without a cursor. |
| WalkProperties.MissingNodeBreaks | src/Itinero.IO.Osm.Tiles/Parsers/TileParser3.cs:177-189 | A segment with a node missing from nodeLocations breaks the way's loop and changes nothing. |
| WalkProperties.RejectedWayIsSkipped | src/Itinero.IO.Osm.Tiles/Parsers/TileParser3.cs:162-193 | A way with at most one node, or one whose tags the vehicles reject, adds no vertex, edge, id, core node or dictionary entry. |
| WalkProperties.SegmentNeverMissesBoundaryVertex | src/Itinero.IO.Osm.Tiles/Parsers/TileParser3.cs:255-260 | No segment reaches the "vertex not found" throw. |
| WalkProperties.HeadMapsNode1 | src/Itinero.IO.Osm.Tiles/Parsers/TileParser3.cs:197-214 | After the head step of a crossing segment, node1 is core and mapped. |
| WalkProperties.WalkNeverMissesBoundaryVertex | src/Itinero.IO.Osm.Tiles/Parsers/TileParser3.cs:258-260 | No tile walk ends with the internal-consistency throw. |
| WalkProperties.Node2Crossing | src/Itinero.IO.Osm.Tiles/Parsers/TileParser3.cs:255-269 | With node1 mapped, the node2 step of a crossing segment emits the edge from node1's vertex to node2's vertex. It clears the shape and opens the cursor only when node2 is in the tile. |
| WalkProperties.CrossingNodeSteps | src/Itinero.IO.Osm.Tiles/Parsers/TileParser3.cs:197-269 | The node steps of a crossing segment make both ends core and mapped. The last edge goes from node1's vertex to node2's vertex. |
| WalkProperties.CrossingSegmentAddsEdge | src/Itinero.IO.Osm.Tiles/Parsers/TileParser3.cs:192-269 | An accepted segment that crosses the tile boundary puts both ends in the core set. It ends with one new edge from node1's vertex to node2's vertex and with an empty buffer. The cursor is node2's vertex exactly when node2 is in the tile. |
| WalkProperties.AbortedWalkStays | src/Itinero.IO.Osm.Tiles/Parsers/TileParser3.cs:150-313 | Once an exception has aborted the walk of a tile, the later ways change nothing. |
| WalkProperties.OverflowAbortsTile | src/Itinero.IO.Osm.Tiles/Parsers/TileParser3.cs:192-312 | A way whose first segment has both nodes in the tile and whose tags overflow the profile count aborts the tile with the profile exception. Only the profile dictionary and the per-way reset change, so `updated` is what the earlier ways left. |
| WalkProperties.ProfileAndMetaIdempotent | src/Itinero.IO.Osm.Tiles/Parsers/TileParser3.cs:192-193 | From the second segment of a way on, AddProfileAndMeta returns the same ids and leaves both dictionaries unchanged. |
| WalkProperties.TileWalkGrows | src/Itinero.IO.Osm.Tiles/Parsers/TileParser3.cs:150-303 | Over a decoded tile, the walk (as written or corrected) keeps the map injective and keeps every old id. New ids are tile nodes with fresh vertices at their locations. The store is only appended to. `updated` holds exactly when a vertex or an edge was added. |
| WalkProperties.DefectTables | src/Itinero.IO.Osm.Tiles/Parsers/TileParser3.cs:62-148 | The node table, way table and core set of the defect tile. |
| WalkProperties.DefectCore | src/Itinero.IO.Osm.Tiles/Parsers/TileParser3.cs:127-138 | Only the way ends are core in the defect tile. |
| WalkProperties.DefectProfile | src/Itinero.IO.Osm.Tiles/Parsers/TileParser3.cs:315-376 | Both segments of the defect way intern the same empty profile and meta. |
| WalkProperties.DefectFirstSegment | src/Itinero.IO.Osm.Tiles/Parsers/TileParser3.cs:171-300 | After segment a→s, a has vertex 0 and holds the cursor, and s is buffered. |
| WalkProperties.DefectFirstSteps | src/Itinero.IO.Osm.Tiles/Parsers/TileParser3.cs:197-300 | The node steps of a→s once the empty profile is interned: a gets vertex 0 and the cursor, and s is buffered. |
| WalkProperties.DefectPromote | src/Itinero.IO.Osm.Tiles/Parsers/TileParser3.cs:197-201 | Promotion of s→t, as written and as corrected. |
| WalkProperties.DefectHead | src/Itinero.IO.Osm.Tiles/Parsers/TileParser3.cs:197-240 | The head step of s→t closes a→s with the buffered shape. |
| WalkProperties.DefectTail | src/Itinero.IO.Osm.Tiles/Parsers/TileParser3.cs:243-293 | The node2 step of s→t emits s→t and leaves no cursor. |
| WalkProperties.DefectSecondSegment | src/Itinero.IO.Osm.Tiles/Parsers/TileParser3.cs:171-302 | The whole segment s→t. |
| WalkProperties.DefectWalk | src/Itinero.IO.Osm.Tiles/Parsers/TileParser3.cs:150-303 | The walk of the defect tile from an empty store. |
| WalkProperties.ShapeRepeatsEndAsWritten | src/Itinero.IO.Osm.Tiles/Parsers/TileParser3.cs:197-228 | As written, edge a→s carries s's own location as its shape, and its distance counts the leg s→s: the edge is not exclusive. |
| WalkProperties.ShapeRepeatsEndCorrected | src/Itinero.IO.Osm.Tiles/Parsers/TileParser3.cs:197-228 | Corrected, edge a→s has an empty shape and distance one estimate. |
| TileParser3.AddProfileAndMeta | src/Itinero.IO.Osm.Tiles/Parsers/TileParser3.cs:315-376 | The dictionaries and the result are what ProfileAndMeta prescribes. |
| TileParser3.Distance | src/Itinero.IO.Osm.Tiles/Parsers/TileParser3.cs:378-396 | The loop sums the estimates along vertex1, each shape point in order, and vertex2. An empty shape gives one term. |
| TileParser3.AddCoreVertex | src/Itinero.IO.Osm.Tiles/Parsers/TileParser3.cs:204-214 | TryGet, then on a miss AddVertex at VertexCount, Set and `updated`, exactly as EnsureVertex. |
| TileParser3.AddShapedEdge | src/Itinero.IO.Osm.Tiles/Parsers/TileParser3.cs:217-231 | AddEdge with the distance through the shape, then shape.Clear(), as EmitEdge. |
| TileParser3.PromoteBoundary | src/Itinero.IO.Osm.Tiles/Parsers/TileParser3.cs:197-201 | Promotion as Promote with the same `fix`: both ends become core; as written the buffer is kept, corrected the promoted node1's buffered point is dropped. |
| TileParser3.Node1Core | src/Itinero.IO.Osm.Tiles/Parsers/TileParser3.cs:204-240 | The node1 step, as Node1. |
| TileParser3.Node1Step | src/Itinero.IO.Osm.Tiles/Parsers/TileParser3.cs:197-240 | Promotion and the node1 step, as HeadStep, for either walk. |
| TileParser3.Node2Step | src/Itinero.IO.Osm.Tiles/Parsers/TileParser3.cs:243-293 | The node2 step, with the boundary edge and its throw, as Node2. |
| TileParser3.AddSegment | src/Itinero.IO.Osm.Tiles/Parsers/TileParser3.cs:171-302 | One pass of the segment loop, as Segment, for either walk. |
| TileParser3.AddNodeSteps | src/Itinero.IO.Osm.Tiles/Parsers/TileParser3.cs:197-300 | The node steps of an accepted segment, as NodeSteps, for either walk. |
| TileParser3.AddSegments | src/Itinero.IO.Osm.Tiles/Parsers/TileParser3.cs:171-302 | The segment loop runs until the way ends or a segment stops it, as Segments, for either walk. |
| TileParser3.NextSegment | src/Itinero.IO.Osm.Tiles/Parsers/TileParser3.cs:171-302 | The loop body takes n walked segments to n + 1, for either walk. |
| TileParser3.AddWay | src/Itinero.IO.Osm.Tiles/Parsers/TileParser3.cs:151-303 | One way, as WalkWay, for either walk. |
| TileParser3.AddWays | src/Itinero.IO.Osm.Tiles/Parsers/TileParser3.cs:150-303 | The loop over waysData walks each way once, in the enumeration order, as WalkWays, until an exception; when none comes every way has been walked. |
| TileParser3.AddOsmTile | src/Itinero.IO.Osm.Tiles/Parsers/TileParser3.cs:38-313 | A failed download changes nothing and returns false. Otherwise every way of waysData is walked once, in the enumeration order, until an exception. The database and the map end as the walk prescribes (as written or corrected, by `fix`), and the result is its `updated` flag, also after a caught exception. |
| TileParserSpec.CappedDistance | src/Itinero.IO.Osm.Tiles/Parsers/TileParser.cs:218-222 | The edge distance never exceeds DefaultMaxEdgeDistance. It is the chained estimate or the cap. |
| TileParserSpec.WalkFrom | src/Itinero.IO.Osm.Tiles/Parsers/TileParser.cs:204-244 | The node loop only appends edges, each within the cap and with the way's profile and meta. Its only exception is a missing node. |
| TileParserSpec.EnsureEnd | src/Itinero.IO.Osm.Tiles/Parsers/TileParser.cs:170-202 | A way end gets its mapped vertex, or a new vertex at VertexCount at its location. It fails exactly when it is neither mapped nor located. |
| TileParserSpec.AddWay | src/Itinero.IO.Osm.Tiles/Parsers/TileParser.cs:78-245 | A rejected way changes nothing. A way adds at most two vertices, only appends edges, and keeps every mapped id. A way added in full has both ends mapped. The profile limit is thrown exactly when AddProfileAndMeta overflows, and then only the profile dictionary has changed. A way object without an array of nodes still interns its profile and meta and may throw the limit, and then changes nothing else. |
| TileParserSpec.AddObject | src/Itinero.IO.Osm.Tiles/Parsers/TileParser.cs:64-245 | A node whose id is already mapped is not added to nodeLocations. Mapped ids keep their vertex. |
| TileParserSpec.AddObjects | src/Itinero.IO.Osm.Tiles/Parsers/TileParser.cs:64-245 | The same holds for the whole graph, up to the first exception. |
| TileParserSpec.ShapesSnoc | src/Itinero.IO.Osm.Tiles/Parsers/TileParser.cs:226-231 | One more edge adds its shape at the end of the shape points. |
| TileParserSpec.ShapesPrepend | src/Itinero.IO.Osm.Tiles/Parsers/TileParser.cs:226-231 | The shape points of an edge followed by more edges. |
| TileParserSpec.ClosesEdge | src/Itinero.IO.Osm.Tiles/Parsers/TileParser.cs:214-235 | A mapped node closes exactly one edge from the previous vertex to its own. |
| TileParserSpec.AddWayWalks | src/Itinero.IO.Osm.Tiles/Parsers/TileParser.cs:167-204 | A way added in full is its two ends followed by the node loop. |
| TileParserSpec.WalkChains | src/Itinero.IO.Osm.Tiles/Parsers/TileParser.cs:204-244 | The edges of the loop form a chain from the previous vertex to the last node's vertex. |
| TileParserSpec.WalkShapes | src/Itinero.IO.Osm.Tiles/Parsers/TileParser.cs:214-242 | The shapes of the loop's edges are the locations of the unmapped nodes, in order. |
| TileParserSpec.InteriorIgnoresEdges | src/Itinero.IO.Osm.Tiles/Parsers/TileParser.cs:242 | The buffered locations depend on the map and the locations only. |
| TileParserSpec.WayIsChain | src/Itinero.IO.Osm.Tiles/Parsers/TileParser.cs:187-235 | The edges of a way added in full form a chain from the first node's vertex to the last node's vertex. |
| TileParserSpec.WayShapes | src/Itinero.IO.Osm.Tiles/Parsers/TileParser.cs:216-225 | The emitted shapes are exactly the buffered interior points. The inserted end locations are removed again. |
| TileParser.AddOsmTile | src/Itinero.IO.Osm.Tiles/Parsers/TileParser.cs:31-252 | A failed download changes nothing. Otherwise the objects are processed in document order, and the database, the map and nodeLocations end as AddObjects prescribes. |
| TileParser.AddWay | src/Itinero.IO.Osm.Tiles/Parsers/TileParser.cs:78-245 | One way object, with or without an array of nodes, as AddWay. |
| TileParser.MapEnd | src/Itinero.IO.Osm.Tiles/Parsers/TileParser.cs:170-202 | One way end, as EnsureEnd. The state is unchanged when the end is missing. |
| TileParser.WalkNodes | src/Itinero.IO.Osm.Tiles/Parsers/TileParser.cs:204-244 | The loop over nodes 1..Count-1, as WalkFrom. |
| TileParser.AddShapedEdge | src/Itinero.IO.Osm.Tiles/Parsers/TileParser.cs:214-233 | One edge whose shape is the buffered points. Its distance is the capped chain through both ends. |
| GeoJsonSpec.TryParseGlobalId | src/Itinero.IO.Osm.Tiles/Parsers/GeoJsonTileParser.cs:239-243 | The stub always fails and yields 0. |
| GeoJsonSpec.TryParseAttributeValue | src/Itinero.IO.Osm.Tiles/Parsers/GeoJsonTileParser.cs:245-249 | The stub always fails and yields the empty string. |
| GeoJsonSpec.StubsParseNoAttributes | src/Itinero.IO.Osm.Tiles/Parsers/GeoJsonTileParser.cs:64-96 | No attribute is ever added. Because of the inverted test, a vertex id that is present becomes 0, and an absent one stays GLOBAL_ID_EMPTY. |
| GeoJsonSpec.Endpoint | src/Itinero.IO.Osm.Tiles/Parsers/GeoJsonTileParser.cs:114-151 | An end is global exactly when an end is outside and the id is in the map. Otherwise it is the local map's vertex or a new vertex at VertexCount. |
| GeoJsonSpec.EndVertices | src/Itinero.IO.Osm.Tiles/Parsers/GeoJsonTileParser.cs:107-151 | Resolving both ends adds at most two vertices and nothing else. |
| GeoJsonSpec.EmitLine | src/Itinero.IO.Osm.Tiles/Parsers/GeoJsonTileParser.cs:162-235 | A whitelist rejection skips the feature. Profile tags no vehicle can traverse leave the whole tile (`Stop`) with nothing changed. The profile limit is thrown exactly when AddProfileAndMeta would overflow, a one-point line throws exactly when the tags are accepted, and the dictionaries then end as AddProfileAndMeta leaves them. An accepted line of two points or more adds exactly one edge, from vertex1 to vertex2, with the interned ids, the interior points as shape and the chained distance. |
| GeoJsonSpec.AddFeature | src/Itinero.IO.Osm.Tiles/Parsers/GeoJsonTileParser.cs:59-236 | A feature that is not a LineString, or has an EMPTY id, changes nothing. A feature adds at most two vertices and at most one edge. |
| GeoJsonSpec.AddFeatures | src/Itinero.IO.Osm.Tiles/Parsers/GeoJsonTileParser.cs:59-236 | The features only append vertices and edges. |
| GeoJsonSpec.AddFeaturesAppend | src/Itinero.IO.Osm.Tiles/Parsers/GeoJsonTileParser.cs:59-236 | After a `return` or an exception, no later feature is processed. |
| GeoJsonSpec.GlobalEndAddsNoEdge | src/Itinero.IO.Osm.Tiles/Parsers/GeoJsonTileParser.cs:114-157 | A feature with an end resolved through the global map adds no edge. Each end not resolved that way still gets a new vertex. |
| GeoJsonSpec.InsideEndsGetNewVertices | src/Itinero.IO.Osm.Tiles/Parsers/GeoJsonTileParser.cs:122-150 | A feature whose ends are both in the tile gets two fresh vertices at its first and last coordinate, and its edge joins them. |
| GeoJsonTileParser.AddOsmTile | src/Itinero.IO.Osm.Tiles/Parsers/GeoJsonTileParser.cs:38-237 | A failed download changes nothing. Otherwise the feature loop ends as AddFeatures prescribes. The `return` at 187 ends the tile normally, and an exception is the failure. |
| GeoJsonTileParser.AddFeature | src/Itinero.IO.Osm.Tiles/Parsers/GeoJsonTileParser.cs:59-236 | One feature, as AddFeature. |
| GeoJsonTileParser.ParseFeatureAttributes | src/Itinero.IO.Osm.Tiles/Parsers/GeoJsonTileParser.cs:64-104 | The attribute loop, with its inverted tests, as ParseAttributes. |
| GeoJsonTileParser.ResolveVertex | src/Itinero.IO.Osm.Tiles/Parsers/GeoJsonTileParser.cs:114-151 | One end, as Endpoint. vertex2 is looked up in the local map under global1. |
| GeoJsonTileParser.AddLine | src/Itinero.IO.Osm.Tiles/Parsers/GeoJsonTileParser.cs:162-235 | The profile, meta and edge, as EmitLine. |
| GeoJsonTileParser.LineShape | src/Itinero.IO.Osm.Tiles/Parsers/GeoJsonTileParser.cs:216-228 | The shape is complete exactly with two coordinates or more. It is then the coordinates without the first and the last, and the distance is the chained estimate over all of them. |
| RouterDbExtensions.Cleared | src/Itinero.IO.Osm.Tiles/RouterDbExtensions.cs:93-96 | Every vertex below VertexCount holds GLOBAL_ID_EMPTY, and other entries are unchanged. |
| RouterDbExtensions.ExtractFrom | src/Itinero.IO.Osm.Tiles/RouterDbExtensions.cs:120-126 | Every extracted id is not EMPTY and maps to a vertex below VertexCount that holds it. |
| RouterDbExtensions.Extracted | src/Itinero.IO.Osm.Tiles/RouterDbExtensions.cs:110-129 | Without the collection, the map is empty. The extracted map is injective and points below VertexCount. |
| RouterDbExtensions.ExtractedFindsEvery | src/Itinero.IO.Osm.Tiles/RouterDbExtensions.cs:120-126 | Every non-EMPTY entry below VertexCount is extracted. |
| RouterDbExtensions.ExtractedLastWins | src/Itinero.IO.Osm.Tiles/RouterDbExtensions.cs:120-126 | An id held by several vertices maps to the last of them. |
| RouterDbExtensions.WrittenUntouched | src/Itinero.IO.Osm.Tiles/RouterDbExtensions.cs:99-102 | A vertex that no pair names keeps its entry. |
| RouterDbExtensions.WrittenLastWins | src/Itinero.IO.Osm.Tiles/RouterDbExtensions.cs:99-102 | When two ids target one vertex, the later-enumerated pair wins. |
| RouterDbExtensions.PersistedAt | src/Itinero.IO.Osm.Tiles/RouterDbExtensions.cs:93-102 | A vertex below VertexCount that is not a map target holds EMPTY. For an injective map, every mapped vertex holds its global id. |
| RouterDbExtensions.PersistedEntries | src/Itinero.IO.Osm.Tiles/RouterDbExtensions.cs:93-102 | For an injective map, the non-EMPTY entries are exactly the map read backwards. |
| RouterDbExtensions.ExtractInverts | src/Itinero.IO.Osm.Tiles/RouterDbExtensions.cs:120-126 | Entries that are exactly an injective map read backwards extract to that map. |
| RouterDbExtensions.RoundTrip | src/Itinero.IO.Osm.Tiles/RouterDbExtensions.cs:93-126 | For an injective map with vertices below VertexCount and no EMPTY key, extracting after persisting gives the same map. |
| RouterDbExtensions.AddOrUpdateGlobalIds | src/Itinero.IO.Osm.Tiles/RouterDbExtensions.cs:85-103 | The collection is created if absent, every vertex is cleared to EMPTY, and then the pairs are written in enumeration order. |
| RouterDbExtensions.ExtractGlobalIds | src/Itinero.IO.Osm.Tiles/RouterDbExtensions.cs:110-129 | A new map that holds exactly the extracted entries. |
| RouterDbExtensions.TileKeepsIds | src/Itinero.IO.Osm.Tiles/RouterDbExtensions.cs:59-62 | Adding one tile keeps the map injective and keeps every old id on its vertex. |
| RouterDbExtensions.TileAdded | src/Itinero.IO.Osm.Tiles/RouterDbExtensions.cs:59-62 | A tile walked from a network whose map points into the store leaves the map pointing into the store; a tile that was not downloaded changes nothing. |
| RouterDbExtensions.TilesAdded | src/Itinero.IO.Osm.Tiles/RouterDbExtensions.cs:59-62 | A sequence of tiles added in order leaves the map pointing into the store. |
| RouterDbExtensions.TilesAddedSnoc | src/Itinero.IO.Osm.Tiles/RouterDbExtensions.cs:59-62 | One more tile is one more TileAdded after the tiles before it. |
| RouterDbExtensions.TilesKeepIds | src/Itinero.IO.Osm.Tiles/RouterDbExtensions.cs:59-62 | A whole sequence of tiles keeps the map injective and keeps every old id on its vertex. |
| RouterDbExtensions.AddTile | src/Itinero.IO.Osm.Tiles/RouterDbExtensions.cs:61 | The network and the shared map after one tile are exactly TileAdded: the walk of that tile's ways in the enumeration order. |
| RouterDbExtensions.AddTiles | src/Itinero.IO.Osm.Tiles/RouterDbExtensions.cs:59-62 | The loop over the tiles leaves the network and the map exactly as TilesAdded prescribes. |
| RouterDbExtensions.PersistGlobalIds | src/Itinero.IO.Osm.Tiles/RouterDbExtensions.cs:65-68 | Persisting an injective map with no EMPTY key, and extracting again, gives the map back. |
| RouterDbExtensions.FinishLoad | src/Itinero.IO.Osm.Tiles/RouterDbExtensions.cs:65-77 | The map is persisted only if keepGlobalIds, with the round trip, and Sort, OptimizeNetwork and Compress are recorded in that order. |
| RouterDbExtensions.LoadOsmDataFromTiles | src/Itinero.IO.Osm.Tiles/RouterDbExtensions.cs:48-78 | The map is extracted once, and the network and the final map are exactly TilesAdded: every tile added in order, from the stored network and the extracted map. The ids are persisted only if keepGlobalIds, and then Sort, OptimizeNetwork and Compress follow, in that order. The final map is injective, keeps every previously stored id, and round-trips through the stored data. |

## Left out

- JSON-LD and GeoJSON decoding, `GetTags` and the reverse key mapping are not modelled. A tile is given as decoded graph objects: a node with its id, location and in-tile flag, or a way with its node list and tags. A GeoJSON tile is given as features whose attributes are name/value string pairs.
- Downloading, URL construction and `TileRange` enumeration are left out. A download is an `Option` (None when it failed or has no graph), and `LoadOsmDataFromTiles` takes the sequence of downloaded tiles. `Tile.IsInside` is the given in-tile flag, or the `inside` predicate for GeoJSON.
- `Coordinate.DistanceEstimateInMeter`, the `(float)` casts and all floating-point arithmetic are not modelled. The estimate is an uninterpreted function to `nat`, and distances are sums of it.
- The vehicle cache (`AddToWhiteList`, `AnyCanTraverse`, `IsOnProfileWhiteList`, `IsOnMetaWhiteList`) is given as uninterpreted functions in `Base.Env`. `MAX_PROFILE_COUNT` and `DefaultMaxEdgeDistance` are parameters, because their values are defined outside these files.
- `GLOBAL_ID_EMPTY` is taken to be `long.MaxValue`. `Constants` is not part of this model, and no property depends on the value.
- The per-vertex `MetaCollection<long>` is a map from vertex to value. An entry never written reads as 0, the default of `long`. Its growth policy is not modelled.
- The effects of `Sort`, `OptimizeNetwork` and `Compress` on the network are not modelled. `Store.RouterDb.Normalize` records only the order of these three calls.
- `MarkAsMulti` (RouterDbExtensions.cs:58), which switches the graph to a multigraph, is left out entirely: the network is a sequence of edges, which already allows several edges between two vertices.
- Logging (`Logger.Log`, the profile `StringBuilder` blocks) and the `ushort`/`uint` casts of profile and meta ids are left out. Vertex handles are unbounded `nat`s, so `uint` wrap-around is not modelled.
- The iteration order of `Dictionary` (`waysData` in TileParser3, the GlobalIdMap's enumeration) is not specified by .NET. It is the ghost `order` of `TileParser3.AddOsmTile` and the ghost `pairs` of `RouterDbExtensions.AddOrUpdateGlobalIds`; the properties hold for every order.
- WalkShapes: the shape-exclusivity invariant is proved for the corrected walk only, because the walk as written breaks it (see Findings). Growth, the cursor discipline (`WalkCursor`) and the properties in `WalkProperties` are proved for both walks, and the imperative `TileParser3` methods run either walk through the same `fix` flag.
- TileParser.cs's own tag loop (110-165) is modelled by TileParser3's `AddProfileAndMeta` (`WalkSpec.ProfileAndMeta`), which it duplicates.
- TileParserSpec.WalkFrom: a missing node is the only exception of the node loop, but no lemma states how much of the way is added before it.
- GeoJsonTileParser.AddOsmTile keeps the source's quirks as written:
  - the inverted `TryParse` tests;
  - vertex2 looked up in the local map under `global1`;
  - the local map is never written;
  - the `return` at 187 ends the whole tile;
  - the `NO_VERTEX` checks at 126 and 145, which always hold, are left out.
- The outer `try`/`catch` of TileParser3 is modelled as the `Abort` outcome of the walk. The other loaders' exceptions are `Failure` results.

## Findings

| source | as written | input that shows it | evidently intended | confidence | as-written member | corrected member |
|---|---|---|---|---|---|---|
| src/Itinero.IO.Osm.Tiles/Parsers/TileParser3.cs:197-228 | A node already buffered as a shape point (296-300) that a boundary-crossing segment then makes core (197-201) stays in the shape of the edge that closes at it. The edge's shape then contains its own end node, and its distance counts a zero-length leg. | One way a→s→t, where a and s are in the tile, t is outside, and s occurs in no other way. The edge a→s gets shape [location of s]. | An edge's shape never holds its end nodes: the promoted node's shape point is dropped when it becomes core. | not executed | WalkProperties.ShapeRepeatsEndAsWritten | WalkProperties.ShapeRepeatsEndCorrected, WalkShapes.TileEdgesExclusive |
