/** The router database as far as the loaders touch it: the network's
    vertices and edges, the profile and meta dictionaries, the per-vertex
    global-id metadata and the normalisation requests (sort, optimise,
    compress) whose effect is outside this model. */
module Store {
  import opened Base

  /** The position of the first occurrence of `x` in `s`. */
  function IndexOf<T(==)>(s: seq<T>, x: T): (i: nat)
    requires x in s
    ensures i < |s| && s[i] == x
    ensures forall j :: 0 <= j < i ==> s[j] != x
  {
    if s[0] == x then 0 else 1 + IndexOf(s[1..], x)
  }

  /** Interning a tag collection into a dictionary (EdgeProfiles.Add,
      EdgeMeta.Add): an existing entry keeps its id, a new one is appended
      and gets the next id. */
  function Intern(table: seq<Tags>, tags: Tags): (r: (seq<Tags>, nat))
    ensures r.1 < |r.0| && r.0[r.1] == tags
    ensures tags in table ==> r.0 == table
    ensures tags !in table ==> r.0 == table + [tags] && r.1 == |table|
  {
    if tags in table then (table, IndexOf(table, tags)) else (table + [tags], |table|)
  }

  /** Interning never forgets or renumbers an entry. */
  lemma InternExtends(table: seq<Tags>, tags: Tags)
    ensures |Intern(table, tags).0| >= |table|
    ensures Intern(table, tags).0[..|table|] == table
  {
  }

  /** Interning twice gives the same id and leaves the dictionary as the first call left it. */
  lemma InternIdempotent(table: seq<Tags>, tags: Tags)
    ensures Intern(Intern(table, tags).0, tags) == Intern(table, tags)
  {
    if tags !in table {
      var t := table + [tags];
      assert tags in t;
      assert forall j :: 0 <= j < |table| ==> t[j] == table[j];
      assert t[|table|] == tags;
    }
  }

  /** The value a per-vertex collection holds for a vertex: what was last
      written for it, or 0 (the default of a long) if nothing was. */
  function Entry(data: map<nat, int64>, vertex: nat): int64
  {
    if vertex in data then data[vertex] else 0
  }

  datatype Normalization = Sort | OptimizeNetwork | Compress

  class RouterDb {
    /** Vertex locations; the handle of a vertex is its index (VertexCount = |vertices|). */
    var vertices: seq<Coordinate>
    var edges: seq<Edge>
    var profiles: seq<Tags>
    var metas: seq<Tags>
    /** The GLOBAL_ID vertex-data collection, if it has been created: the
        value written for each vertex. */
    var globalIds: Option<map<nat, int64>>
    /** The normalisation steps requested so far, in order. */
    var normalization: seq<Normalization>

    constructor ()
      ensures vertices == [] && edges == [] && profiles == [] && metas == []
      ensures globalIds == None && normalization == []
    {
      vertices, edges, profiles, metas := [], [], [], [];
      globalIds, normalization := None, [];
    }

    function VertexCount(): nat
      reads this
    {
      |vertices|
    }

    /** Adds the vertex with the given handle, which the loaders always take to be VertexCount. */
    method AddVertex(vertex: nat, location: Coordinate)
      requires vertex == |vertices|
      modifies this`vertices
      ensures vertices == old(vertices) + [location]
    {
      vertices := vertices + [location];
    }

    method AddEdge(from: nat, to: nat, distance: nat, profile: nat, meta: nat, shape: seq<Coordinate>)
      modifies this`edges
      ensures edges == old(edges) + [Edge(from, to, distance, profile, meta, shape)]
    {
      edges := edges + [Edge(from, to, distance, profile, meta, shape)];
    }

    method AddProfile(tags: Tags) returns (id: nat)
      modifies this`profiles
      ensures (profiles, id) == Intern(old(profiles), tags)
    {
      profiles, id := Intern(profiles, tags).0, Intern(profiles, tags).1;
    }

    method AddMeta(tags: Tags) returns (id: nat)
      modifies this`metas
      ensures (metas, id) == Intern(old(metas), tags)
    {
      metas, id := Intern(metas, tags).0, Intern(metas, tags).1;
    }

    /** VertexData.AddInt64: creates the (empty) per-vertex global-id collection. */
    method CreateGlobalIds()
      modifies this`globalIds
      ensures globalIds == Some(map[])
    {
      globalIds := Some(map[]);
    }

    /** Writes the global id of one vertex into the existing collection. */
    method SetGlobalId(vertex: nat, globalId: int64)
      requires globalIds.Some?
      modifies this`globalIds
      ensures globalIds == Some(old(globalIds.value)[vertex := globalId])
    {
      globalIds := Some(globalIds.value[vertex := globalId]);
    }

    /** Reads the global id of one vertex from the existing collection. */
    function GlobalIdAt(vertex: nat): int64
      requires globalIds.Some?
      reads this
    {
      Entry(globalIds.value, vertex)
    }

    method Normalize(step: Normalization)
      modifies this`normalization
      ensures normalization == old(normalization) + [step]
    {
      normalization := normalization + [step];
    }
  }
}
