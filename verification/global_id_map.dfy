/** GlobalIdMap: the mapping from a node's global id to the vertex that
    represents it, shared by every tile of one load. */
module GlobalIds {
  import opened Base

  /** No two global ids share a vertex. */
  ghost predicate Injective(m: map<int64, nat>)
  {
    forall a, b :: a in m && b in m && a != b ==> m[a] != m[b]
  }

  class GlobalIdMap {
    var vertexPerId: map<int64, nat>

    constructor ()
      ensures vertexPerId == map[]
    {
      vertexPerId := map[];
    }

    /** Inserts or overwrites: the last write for a key wins, other keys keep their vertex. */
    method Set(globalVertexId: int64, vertex: nat)
      modifies this
      ensures vertexPerId == old(vertexPerId)[globalVertexId := vertex]
      ensures globalVertexId in vertexPerId && vertexPerId[globalVertexId] == vertex
      ensures forall g :: g != globalVertexId ==> (g in vertexPerId <==> g in old(vertexPerId))
      ensures forall g :: g != globalVertexId && g in vertexPerId ==> vertexPerId[g] == old(vertexPerId)[g]
    {
      vertexPerId := vertexPerId[globalVertexId := vertex];
    }

    /** Looks a key up without changing anything; the out value is 0 when the key is absent. */
    method TryGet(globalVertexId: int64) returns (found: bool, vertex: nat)
      ensures found <==> globalVertexId in vertexPerId
      ensures found ==> vertex == vertexPerId[globalVertexId]
      ensures !found ==> vertex == 0
    {
      found := globalVertexId in vertexPerId;
      vertex := if found then vertexPerId[globalVertexId] else 0;
    }

    /** Enumerates the pairs in some order: each key exactly once, with its current vertex. */
    method Enumerate() returns (pairs: seq<(int64, nat)>)
      ensures |pairs| == |vertexPerId|
      ensures forall i :: 0 <= i < |pairs| ==> pairs[i].0 in vertexPerId && pairs[i].1 == vertexPerId[pairs[i].0]
      ensures forall i, j :: 0 <= i < j < |pairs| ==> pairs[i].0 != pairs[j].0
      ensures forall g :: g in vertexPerId ==> exists i :: 0 <= i < |pairs| && pairs[i].0 == g
    {
      pairs := [];
      var remaining := vertexPerId.Keys;
      while remaining != {}
        invariant remaining <= vertexPerId.Keys
        invariant |pairs| + |remaining| == |vertexPerId|
        invariant forall i :: 0 <= i < |pairs| ==> pairs[i].0 in vertexPerId && pairs[i].0 !in remaining
        invariant forall i :: 0 <= i < |pairs| ==> pairs[i].1 == vertexPerId[pairs[i].0]
        invariant forall i, j :: 0 <= i < j < |pairs| ==> pairs[i].0 != pairs[j].0
        invariant forall g :: g in vertexPerId && g !in remaining ==> exists i :: 0 <= i < |pairs| && pairs[i].0 == g
        decreases remaining
      {
        var g :| g in remaining;
        ghost var before := pairs;
        pairs := pairs + [(g, vertexPerId[g])];
        remaining := remaining - {g};
        forall h | h in vertexPerId && h !in remaining
          ensures exists i :: 0 <= i < |pairs| && pairs[i].0 == h
        {
          if h == g {
            assert pairs[|before|].0 == h;
          } else {
            var i :| 0 <= i < |before| && before[i].0 == h;
            assert pairs[i].0 == h;
          }
        }
      }
    }
  }
}
