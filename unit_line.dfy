/** A unit edge between two vertices and the two adjacency entries it contributes. */
module UnitLines {
  import opened Wrappers
  import opened OrderedMaps
  import opened UnitPoints

  /** A vertex value's adjacency lists, keyed in insertion order. */
  type AdjacencySet = OMap<int, seq<int>>

  /** `initializeAdjacencySet`: set A to [B], then B to [A], on an empty map. */
  function Contribution(a: int, b: int): (g: AdjacencySet)
    ensures g.Valid() && g.entries.Keys == {a, b}
    ensures g.entries[b] == [a]
    ensures a != b ==> g.keys == [a, b] && g.entries[a] == [b]
    ensures a == b ==> g.keys == [a]
  {
    Empty<int, seq<int>>().Set(a, [b]).Set(b, [a])
  }

  /** For distinct endpoints the contribution is symmetric: x is listed under y exactly when y is listed under x. */
  lemma ContributionSymmetric(a: int, b: int, x: int, y: int)
    requires a != b
    requires x in Contribution(a, b).entries && y in Contribution(a, b).entries
    ensures x in Contribution(a, b).entries[y] <==> y in Contribution(a, b).entries[x]
  {
  }

  class UnitLine {
    const pointA: UnitPoint
    const pointB: UnitPoint
    /** `adjacencySet`, filled once from the two endpoint values. */
    const adjacencySet: AdjacencySet := Contribution(pointA.value, pointB.value)

    constructor (pointA: UnitPoint, pointB: UnitPoint)
      ensures this.pointA == pointA && this.pointB == pointB
    {
      this.pointA := pointA;
      this.pointB := pointB;
    }

    /** The source's constructor: a missing endpoint is an `InvalidEdge` error. */
    static method Create(a: UnitPoint?, b: UnitPoint?) returns (r: Result<UnitLine, Error>)
      ensures r.Err? <==> a == null || b == null
      ensures r.Err? ==> r.error == InvalidEdge
      ensures r.Ok? ==> fresh(r.value) && r.value.pointA == a && r.value.pointB == b
    {
      if a == null || b == null {
        return Err(InvalidEdge);
      }
      var line := new UnitLine(a, b);
      return Ok(line);
    }
  }

  /** The endpoint values of an edge. */
  function Ends(e: UnitLine): (int, int)
  {
    (e.pointA.value, e.pointB.value)
  }
}
