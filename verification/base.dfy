/** Shared vocabulary of the tile loaders: global ids, coordinates, tags,
    edges, the vehicle capability object and the chained distance sum. */
module Base {

  /** A signed 64-bit integer: OSM node ids and the per-vertex global-id metadata. */
  newtype int64 = x: int | -0x8000_0000_0000_0000 <= x < 0x8000_0000_0000_0000

  /** The global id that means "no id" in the per-vertex metadata. */
  const GLOBAL_ID_EMPTY: int64 := 0x7FFF_FFFF_FFFF_FFFF

  datatype Option<T> = None | Some(value: T)

  /** A location. Its floating-point content plays no role in the model:
      only equality and the distance estimate below are used. */
  datatype Coordinate = Coordinate(latitude: int, longitude: int)

  /** An attribute collection: a key has at most one value, so AddOrReplace
      is a map update. */
  type Tags = map<string, string>

  /** The data the network stores for one edge. */
  datatype Edge = Edge(from: nat, to: nat, distance: nat, profile: nat, meta: nat, shape: seq<Coordinate>)

  /** The vehicle cache, as far as the loaders use it:
      - whitelist(tags): AddToWhiteList; None when no vehicle accepts the way,
        otherwise the keys it put on the profile whitelist;
      - onProfileWhiteList / onMetaWhiteList: the two per-key membership tests;
      - anyCanTraverse(profileTags): AnyCanTraverse. */
  datatype Vehicles = Vehicles(
    whitelist: Tags -> Option<set<string>>,
    onProfileWhiteList: string -> bool,
    onMetaWhiteList: string -> bool,
    anyCanTraverse: Tags -> bool)

  /** Everything a loader receives besides the tile and the store:
      the vehicles, the (uninterpreted) distance estimate in metres and the
      bound on interned profile ids. */
  datatype Env = Env(vehicles: Vehicles, estimate: (Coordinate, Coordinate) -> nat, maxProfileCount: nat)

  /** The sum of the estimates between consecutive points of a polyline. */
  function ChainLength(estimate: (Coordinate, Coordinate) -> nat, points: seq<Coordinate>): nat
  {
    if |points| < 2 then 0
    else ChainLength(estimate, points[..|points| - 1]) + estimate(points[|points| - 2], points[|points| - 1])
  }

  /** A two-point polyline is one estimate. */
  lemma ChainOfTwo(estimate: (Coordinate, Coordinate) -> nat, a: Coordinate, b: Coordinate)
    ensures ChainLength(estimate, [a, b]) == estimate(a, b)
  {
    assert [a, b][..1] == [a];
  }

  /** Chaining through one more point adds exactly the estimate of the new leg. */
  lemma ChainSnoc(estimate: (Coordinate, Coordinate) -> nat, points: seq<Coordinate>, p: Coordinate)
    requires |points| > 0
    ensures ChainLength(estimate, points + [p]) == ChainLength(estimate, points) + estimate(points[|points| - 1], p)
  {
    assert (points + [p])[..|points|] == points;
  }
}
