/**
 * A d-dimensional hypercube drawn as one line: its 2^d vertices, the edges leaving the main
 * corners, the Eulerian circuit through those edges, and the circuit read back as vertices.
 * For d = 0 the shape is a single dot.
 */
module GeometricShapes {
  import opened Wrappers
  import opened Bits
  import opened Matrices
  import opened UnitPoints
  import opened UnitLines
  import opened EulerianCircuits
  import opened MergeProperties
  import opened TraversalProperties
  import opened Hypercubes
  import opened CubeTheorems
  import opened CubeThree

  /** What the shape shows: a line through the given vertices, or a dot at one vertex. */
  datatype Drawing = Line(vertices: seq<UnitPoint?>) | Dot(point: UnitPoint)

  // ---------------------------------------------------------------- the vertices

  /** The vertex values, in order. */
  function Values(points: seq<UnitPoint>): (r: seq<nat>)
    ensures |r| == |points| && forall i :: 0 <= i < |points| ==> r[i] == points[i].value
  {
    seq(|points|, i requires 0 <= i < |points| => points[i].value)
  }

  /** Point `i` has value `i`, as `createPoints` makes them. */
  ghost predicate Numbered(points: seq<UnitPoint>)
  {
    forall i :: 0 <= i < |points| ==> points[i].value == i
  }

  /** The position of the first point with value `v`, or -1. */
  function FindIndex(points: seq<UnitPoint>, v: int): (i: int)
    ensures -1 <= i < |points|
    ensures i == -1 <==> forall j :: 0 <= j < |points| ==> points[j].value != v
    ensures 0 <= i ==> points[i].value == v && forall j :: 0 <= j < i ==> points[j].value != v
    decreases |points|
  {
    if |points| == 0 then -1
    else if points[|points| - 1].value == v && FindIndex(points[..|points| - 1], v) == -1 then |points| - 1
    else FindIndex(points[..|points| - 1], v)
  }

  /** `points.find(n => n.value === v)`: the first point with value `v`, or null for `undefined`. */
  function Find(points: seq<UnitPoint>, v: int): (r: UnitPoint?)
  {
    var i := FindIndex(points, v);
    if i < 0 then null else points[i]
  }

  /** In numbered points, the value `v` is found exactly when it is in range, and it is point `v`. */
  lemma FindNumbered(points: seq<UnitPoint>, v: int)
    requires Numbered(points)
    ensures 0 <= v < |points| ==> Find(points, v) == points[v]
    ensures !(0 <= v < |points|) ==> Find(points, v) == null
  {
    var i := FindIndex(points, v);
    if 0 <= v < |points| {
      assert points[v].value == v;
      assert i == v;
    }
  }

  /** `createMainPoints`: the points that are main corners, in order. */
  function MainPoints(points: seq<UnitPoint>): (r: seq<UnitPoint>)
    ensures forall t :: 0 <= t < |r| ==> r[t].MainCorner()
    decreases |points|
  {
    if |points| == 0 then []
    else
      var p := points[|points| - 1];
      MainPoints(points[..|points| - 1]) + (if p.MainCorner() then [p] else [])
  }

  /** The main points of numbered points are the main corners below their count, in increasing order. */
  lemma {:induction false} MainPointsValues(points: seq<UnitPoint>)
    requires Numbered(points)
    ensures Values(MainPoints(points)) == Anchors(|points|)
    decreases |points|
  {
    if |points| > 0 {
      var n := |points|;
      var pre := points[..n - 1];
      assert Numbered(pre) by {
        forall i | 0 <= i < |pre| ensures pre[i].value == i { assert pre[i] == points[i]; }
      }
      MainPointsValues(pre);
      var p := points[n - 1];
      var tail := if p.MainCorner() then [p] else [];
      assert Values(MainPoints(pre) + tail) == Values(MainPoints(pre)) + Values(tail);
      assert Values(tail) == (if IsMainCorner(n - 1) then [n - 1] else []);
    }
  }

  // ---------------------------------------------------------------- the edges

  /** The `d` neighbours of `p`, each looked up among `points` by its flipped value. */
  function Neighbourhood(p: UnitPoint, points: seq<UnitPoint>, d: nat): (r: seq<(UnitPoint, UnitPoint?)>)
    ensures |r| == d
  {
    seq(d, i requires 0 <= i < d => (p, Find(points, p.XorWith(Pow2(i)))))
  }

  /** The pairs `createEdges` joins: the `flatMap` of `Neighbourhood` over the main points. */
  function EdgeEnds(mainPoints: seq<UnitPoint>, points: seq<UnitPoint>, d: nat): seq<(UnitPoint, UnitPoint?)>
    decreases |mainPoints|
  {
    if |mainPoints| == 0 then []
    else
      var n := |mainPoints|;
      EdgeEnds(mainPoints[..n - 1], points, d) + Neighbourhood(mainPoints[n - 1], points, d)
  }

  /** Every pair has a second point, and the pairs' values are `pairs`. */
  ghost predicate EndsMatch(ends: seq<(UnitPoint, UnitPoint?)>, pairs: seq<(int, int)>)
  {
    |ends| == |pairs| &&
    forall k :: 0 <= k < |ends| ==> ends[k].1 != null && (ends[k].0.value, ends[k].1.value) == pairs[k]
  }

  lemma EndsMatchJoin(e1: seq<(UnitPoint, UnitPoint?)>, p1: seq<(int, int)>, e2: seq<(UnitPoint, UnitPoint?)>, p2: seq<(int, int)>)
    requires EndsMatch(e1, p1) && EndsMatch(e2, p2)
    ensures EndsMatch(e1 + e2, p1 + p2)
  {
    forall k | 0 <= k < |e1 + e2|
      ensures (e1 + e2)[k].1 != null && ((e1 + e2)[k].0.value, (e1 + e2)[k].1.value) == (p1 + p2)[k]
    {
      if k >= |e1| {
        assert (e1 + e2)[k] == e2[k - |e1|] && (p1 + p2)[k] == p2[k - |p1|];
      }
    }
  }

  /** Among the 2^d numbered points, every neighbour of a vertex below 2^d is found. */
  lemma NeighbourhoodValues(p: UnitPoint, points: seq<UnitPoint>, d: nat)
    requires Numbered(points) && |points| == Pow2(d) && p.value < Pow2(d)
    ensures EndsMatch(Neighbourhood(p, points, d), Flips(p.value, d))
  {
    var r := Neighbourhood(p, points, d);
    forall i | 0 <= i < d ensures r[i].1 != null && (r[i].0.value, r[i].1.value) == Flips(p.value, d)[i] {
      FlipStaysBelow(p.value, i, d);
      FindNumbered(points, Xor(p.value, Pow2(i)));
    }
  }

  lemma {:induction false} EdgeEndsValues(mainPoints: seq<UnitPoint>, points: seq<UnitPoint>, d: nat)
    requires Numbered(points) && |points| == Pow2(d)
    requires forall t :: 0 <= t < |mainPoints| ==> mainPoints[t].value < Pow2(d)
    ensures EndsMatch(EdgeEnds(mainPoints, points, d), EdgePairs(Values(mainPoints), d))
    decreases |mainPoints|
  {
    if |mainPoints| > 0 {
      var n := |mainPoints|;
      var pre := mainPoints[..n - 1];
      EdgeEndsValues(pre, points, d);
      NeighbourhoodValues(mainPoints[n - 1], points, d);
      assert Values(mainPoints)[..n - 1] == Values(pre);
      EndsMatchJoin(EdgeEnds(pre, points, d), EdgePairs(Values(pre), d),
                    Neighbourhood(mainPoints[n - 1], points, d), Flips(mainPoints[n - 1].value, d));
    }
  }

  /** Among the 2^d numbered points every edge end is found, and the ends' values are the d-cube's edges. */
  lemma CubeEnds(points: seq<UnitPoint>, d: nat)
    requires Numbered(points) && |points| == Pow2(d)
    ensures EndsMatch(EdgeEnds(MainPoints(points), points, d), CubeEdges(d))
  {
    var mains := MainPoints(points);
    MainPointsValues(points);
    AnchorsSpec(Pow2(d));
    assert forall t :: 0 <= t < |mains| ==> mains[t].value == Anchors(Pow2(d))[t];
    EdgeEndsValues(mains, points, d);
  }

  /** The lines join the pairs, one line per pair, in order. */
  ghost predicate LinesJoin(lines: seq<UnitLine>, ends: seq<(UnitPoint, UnitPoint?)>)
  {
    |lines| == |ends| &&
    forall k :: 0 <= k < |lines| ==> lines[k].pointA == ends[k].0 && lines[k].pointB == ends[k].1
  }

  /** Lines joining pairs whose values are `pairs` have exactly those endpoint values. */
  lemma LinesPairs(lines: seq<UnitLine>, ends: seq<(UnitPoint, UnitPoint?)>, pairs: seq<(int, int)>)
    requires LinesJoin(lines, ends) && EndsMatch(ends, pairs)
    ensures Pairs(lines) == pairs
  {
  }

  // ---------------------------------------------------------------- the drawn line

  /** `createGraph`: each circuit value looked up among the points (null where none has it). */
  function GraphOf(path: seq<int>, points: seq<UnitPoint>): (r: seq<UnitPoint?>)
    ensures |r| == |path|
  {
    seq(|path|, k requires 0 <= k < |path| => Find(points, path[k]))
  }

  /** Among numbered points, a path of in-range values is drawn through exactly the points with those values. */
  lemma GraphNumbered(path: seq<int>, points: seq<UnitPoint>)
    requires Numbered(points) && forall k :: 0 <= k < |path| ==> 0 <= path[k] < |points|
    ensures forall k :: 0 <= k < |path| ==>
      GraphOf(path, points)[k] == points[path[k]] && points[path[k]].value == path[k]
  {
    forall k | 0 <= k < |path| ensures GraphOf(path, points)[k] == points[path[k]] {
      FindNumbered(points, path[k]);
    }
  }

  // ---------------------------------------------------------------- the shape

  class GeometricShape {
    const dimensions: nat
    const points: seq<UnitPoint>
    const mainPoints: seq<UnitPoint>
    /** `edges`; empty where the source leaves it undefined (d = 0). */
    const edges: seq<UnitLine>
    /** `eulerianPath`; null where the source leaves it undefined (d = 0). */
    const eulerianPath: EulerianCircuit?
    /** `graph`; empty where the source leaves it undefined (d = 0). */
    const graph: seq<UnitPoint?>
    /** `shapeObject`, read through the `object` getter. */
    const shapeObject: Drawing

    constructor (dimensions: nat, points: seq<UnitPoint>, mainPoints: seq<UnitPoint>, edges: seq<UnitLine>,
                 eulerianPath: EulerianCircuit?, graph: seq<UnitPoint?>, shapeObject: Drawing)
      ensures this.dimensions == dimensions && this.points == points && this.mainPoints == mainPoints
      ensures this.edges == edges && this.eulerianPath == eulerianPath && this.graph == graph
      ensures this.shapeObject == shapeObject
    {
      this.dimensions := dimensions;
      this.points := points;
      this.mainPoints := mainPoints;
      this.edges := edges;
      this.eulerianPath := eulerianPath;
      this.graph := graph;
      this.shapeObject := shapeObject;
    }

    /** What the source's constructor sets up, for d = 0 (a dot) and for d > 0 (a line along the circuit). */
    ghost predicate Consistent()
      reads eulerianPath
    {
      |points| == Pow2(dimensions) && Numbered(points) && mainPoints == MainPoints(points) &&
      (dimensions == 0 ==>
        edges == [] && eulerianPath == null && graph == [] && shapeObject == Dot(points[0])) &&
      (dimensions > 0 ==>
        LinesJoin(edges, EdgeEnds(mainPoints, points, dimensions)) &&
        eulerianPath != null && eulerianPath.edges == edges && Build(edges).Ok? &&
        (eulerianPath.adjacencySet, eulerianPath.circuit) == Build(edges).value &&
        graph == GraphOf(eulerianPath.circuit, points) && shapeObject == Line(graph))
    }

    /** Every point's position is its transform applied to its base vector. */
    ghost predicate PointsValid()
      reads points
    {
      forall j :: 0 <= j < |points| ==> points[j].Valid()
    }

    /** `new Array(2 ** d).fill(0).map((_, i) => new UnitPoint(i, ...))`. */
    static method CreatePoints(dimensions: nat, scalingFactor: real, offset: Vector4) returns (points: seq<UnitPoint>)
      ensures |points| == Pow2(dimensions) && Numbered(points)
      ensures forall j :: 0 <= j < |points| ==> fresh(points[j])
      ensures forall j :: 0 <= j < |points| ==>
        points[j].scalingFactor == scalingFactor && points[j].offset == offset &&
        points[j].vector == Base(BaseVector(j, offset)) && points[j].rotationMatrix == Times(Identity, Identity) &&
        points[j].Valid()
    {
      points := [];
      var count := Pow2(dimensions);
      for i := 0 to count
        invariant |points| == i && Numbered(points)
        invariant forall j :: 0 <= j < i ==> fresh(points[j])
        invariant forall j :: 0 <= j < i ==>
          points[j].scalingFactor == scalingFactor && points[j].offset == offset &&
          points[j].vector == Base(BaseVector(j, offset)) && points[j].rotationMatrix == Times(Identity, Identity) &&
          points[j].Valid()
      {
        var p := new UnitPoint(i, scalingFactor, offset);
        points := points + [p];
      }
    }

    /** `createEdges`: a line for each pair; a missing second point fails as the line's constructor does. */
    static method CreateEdges(mainPoints: seq<UnitPoint>, points: seq<UnitPoint>, dimensions: nat)
      returns (r: Result<seq<UnitLine>, Error>)
      ensures var ends := EdgeEnds(mainPoints, points, dimensions);
        r.Ok? <==> forall k :: 0 <= k < |ends| ==> ends[k].1 != null
      ensures r.Err? ==> r.error == InvalidEdge
      ensures r.Ok? ==> LinesJoin(r.value, EdgeEnds(mainPoints, points, dimensions))
      ensures r.Ok? ==> forall k :: 0 <= k < |r.value| ==> fresh(r.value[k])
    {
      var ends := EdgeEnds(mainPoints, points, dimensions);
      var lines: seq<UnitLine> := [];
      for k := 0 to |ends|
        invariant |lines| == k && LinesJoin(lines, ends[..k])
        invariant forall j :: 0 <= j < k ==> ends[j].1 != null
        invariant forall j :: 0 <= j < k ==> fresh(lines[j])
      {
        var line := UnitLine.Create(ends[k].0, ends[k].1);
        if line.Err? {
          assert ends[k].1 == null && ends == EdgeEnds(mainPoints, points, dimensions);
          return Err(line.error);
        }
        lines := lines + [line.value];
      }
      assert ends[..|ends|] == ends;
      return Ok(lines);
    }

    /**
     * The source's constructor with the default options' scaling factor and offset as parameters;
     * the only failure is the circuit's odd-vertex repair, which cannot happen for d <= 4.
     */
    static method Create(dimensions: nat, scalingFactor: real, offset: Vector4) returns (r: Result<GeometricShape, Error>)
      ensures r.Err? ==> dimensions > 0 && r.error == UnresolvableOddVertex
      ensures dimensions <= 4 ==> r.Ok?
      ensures r.Ok? ==> fresh(r.value) && r.value.dimensions == dimensions && r.value.Consistent()
      ensures r.Ok? ==> forall j :: 0 <= j < |r.value.points| ==>
        fresh(r.value.points[j]) && r.value.points[j].Valid() &&
        r.value.points[j].scalingFactor == scalingFactor && r.value.points[j].offset == offset &&
        r.value.points[j].vector == Base(BaseVector(j, offset))
    {
      var points := CreatePoints(dimensions, scalingFactor, offset);
      if dimensions == 0 {
        var shape := new GeometricShape(0, points, MainPoints(points), [], null, [], Dot(points[0]));
        return Ok(shape);
      }
      r := CreateLine(dimensions, points);
    }

    /** The part of the constructor for d > 0: edges, circuit and line over freshly created points. */
    static method CreateLine(dimensions: nat, points: seq<UnitPoint>) returns (r: Result<GeometricShape, Error>)
      requires dimensions > 0 && |points| == Pow2(dimensions) && Numbered(points)
      ensures r.Err? ==> r.error == UnresolvableOddVertex
      ensures dimensions <= 4 ==> r.Ok?
      ensures r.Ok? ==> fresh(r.value) && r.value.dimensions == dimensions && r.value.points == points
      ensures r.Ok? ==> r.value.Consistent()
    {
      var mainPoints := MainPoints(points);
      CubeEnds(points, dimensions);
      var created := CreateEdges(mainPoints, points, dimensions);
      assert created.Ok?;
      var edges := created.value;
      LinesPairs(edges, EdgeEnds(mainPoints, points, dimensions), CubeEdges(dimensions));
      CubeBuildOutcome(edges, dimensions);
      var circuit := EulerianCircuit.Create(edges);
      if circuit.Err? {
        return Err(circuit.error);
      }
      var path := circuit.value;
      var graph := GraphOf(path.circuit, points);
      var shape := new GeometricShape(dimensions, points, mainPoints, edges, path, graph, Line(graph));
      return Ok(shape);
    }

    /** `setRotationMatrix`: every point goes back to its base vector with a copy of `m` as its transform. */
    method SetRotationMatrix(m: Matrix4)
      requires Numbered(points)
      modifies points
      ensures forall j :: 0 <= j < |points| ==>
        points[j].vector == Base(points[j].baseVector) && points[j].rotationMatrix == Times(Identity, m) &&
        points[j].rotations == 0
      ensures PointsValid()
    {
      for k := 0 to |points|
        invariant forall j :: 0 <= j < k ==>
          points[j].vector == Base(points[j].baseVector) && points[j].rotationMatrix == Times(Identity, m) &&
          points[j].rotations == 0 && points[j].Valid()
      {
        points[k].SetRotationMatrix(m);
      }
    }

    /** `animate`: every point applies its transform once more; the redrawing is not modelled. */
    method Animate()
      requires Numbered(points) && PointsValid()
      modifies points
      ensures forall j :: 0 <= j < |points| ==>
        points[j].rotationMatrix == old(points[j].rotationMatrix) &&
        points[j].rotations == old(points[j].rotations) + 1 &&
        points[j].vector == Applied(points[j].rotationMatrix, old(points[j].vector))
      ensures PointsValid()
    {
      for k := 0 to |points|
        invariant forall j :: 0 <= j < k ==>
          points[j].rotationMatrix == old(points[j].rotationMatrix) &&
          points[j].rotations == old(points[j].rotations) + 1 &&
          points[j].vector == Applied(points[j].rotationMatrix, old(points[j].vector)) && points[j].Valid()
        invariant forall j :: k <= j < |points| ==>
          points[j].rotationMatrix == old(points[j].rotationMatrix) &&
          points[j].rotations == old(points[j].rotations) &&
          points[j].vector == old(points[j].vector) && points[j].Valid()
      {
        points[k].Rotate();
      }
    }
  }

  // ---------------------------------------------------------------- what the drawn line is

  /** Building from the d-cube's edges (d > 0) can fail only in the repair, and succeeds for d <= 4. */
  lemma CubeBuildOutcome(edges: seq<UnitLine>, d: nat)
    requires d > 0 && Pairs(edges) == CubeEdges(d)
    ensures Build(edges).Err? ==> Build(edges).error == UnresolvableOddVertex
    ensures d <= 4 ==> Build(edges).Ok?
  {
    CubeFirstEdge(d);
    assert |edges| == |Pairs(edges)|;
    if d == 1 {
      CubeOneBuild(edges);
    } else if d == 2 || d == 4 {
      CubeEvenBuild(edges, d);
    } else if d == 3 {
      CubeThreeBuild(edges);
    }
  }

  /** Segment `k` of a drawn line joins two points whose values differ in one of the low `d` bits. */
  ghost predicate CubeSegment(graph: seq<UnitPoint?>, k: int, d: nat)
  {
    0 <= k < |graph| - 1 && graph[k] != null && graph[k + 1] != null &&
    IsFlip(graph[k].value, graph[k + 1].value, d)
  }

  /** The edges of a shape of dimension d > 0 are the d-cube's edges. */
  lemma ShapeEdges(s: GeometricShape)
    requires s.Consistent() && s.dimensions > 0
    ensures Pairs(s.edges) == CubeEdges(s.dimensions)
  {
    CubeEnds(s.points, s.dimensions);
    LinesPairs(s.edges, EdgeEnds(s.mainPoints, s.points, s.dimensions), CubeEdges(s.dimensions));
  }

  /**
   * For 1 <= d <= 4 the line starts and ends at point 0, its k-th vertex is the point whose value
   * is the circuit's k-th value, consecutive values are listed under each other in the repaired
   * lists, the circuit takes each pair of repaired entries exactly once, and every point of the
   * shape is on the line.
   */
  lemma ShapeCircuit(s: GeometricShape)
    requires s.Consistent() && 1 <= s.dimensions <= 4
    ensures forall k :: 0 <= k < |s.eulerianPath.circuit| ==> 0 <= s.eulerianPath.circuit[k] < |s.points|
    ensures var c := s.eulerianPath.circuit;
      ClosedWalk(s.eulerianPath.adjacencySet.entries, 0, c) &&
      UsesEachEntryOnce(s.eulerianPath.adjacencySet.entries, c) &&
      |s.graph| == |c| &&
      (forall k :: 0 <= k < |c| ==> s.graph[k] == s.points[c[k]] && s.points[c[k]].value == c[k]) &&
      forall v :: 0 <= v < |s.points| ==> v in c
  {
    ShapeEdges(s);
    CubeCircuit(s.edges, s.dimensions);
    var c := s.eulerianPath.circuit;
    assert forall k :: 0 <= k < |c| ==> 0 <= c[k] < |s.points|;
    GraphNumbered(c, s.points);
  }

  /**
   * For 1 <= d <= 4 the drawn line is the d-cube: every segment joins two points whose values
   * differ in one of the low `d` bits, and every edge of the d-cube is a segment. For d = 2 and
   * d = 4 nothing is added to the merged lists, and the line draws every edge exactly once.
   */
  lemma ShapeSegments(s: GeometricShape)
    requires s.Consistent() && 1 <= s.dimensions <= 4
    ensures (s.dimensions == 2 || s.dimensions == 4) ==>
      s.eulerianPath.adjacencySet == Merge(s.edges) &&
      forall x: nat, y :: x < Pow2(s.dimensions) && IsFlip(x, y, s.dimensions) ==>
        Steps(s.eulerianPath.circuit, x, y) == 1
    ensures forall k :: 0 <= k < |s.graph| - 1 ==> CubeSegment(s.graph, k, s.dimensions)
    ensures forall x: nat, y :: x < Pow2(s.dimensions) && IsFlip(x, y, s.dimensions) ==>
      exists k :: CubeSegment(s.graph, k, s.dimensions) && Between(s.graph[k].value, s.graph[k + 1].value, x, y)
  {
    var d, c := s.dimensions, s.eulerianPath.circuit;
    ShapeEdges(s);
    ShapeCircuit(s);
    CubeSteps(s.edges, d);
    CubeKeysKept(s.edges, d);
    CubeRepairedLists(s.edges, d);
    WalkSegments(s.graph, s.points, c, s.eulerianPath.adjacencySet.entries, d);
    if d == 2 || d == 4 {
      CubeEvenBuild(s.edges, d);
      CubeEvenCircuit(s.edges, d);
    }
    forall x: nat, y | x < Pow2(d) && IsFlip(x, y, d)
      ensures exists k :: CubeSegment(s.graph, k, d) && Between(s.graph[k].value, s.graph[k + 1].value, x, y)
    {
      StepsFound(c, x, y);
      var k :| 0 <= k < |c| - 1 && Between(c[k], c[k + 1], x, y);
      assert CubeSegment(s.graph, k, d);
    }
  }

  /** A walk over a cube's lists, read back through the points it names, steps along cube edges. */
  lemma WalkSegments(graph: seq<UnitPoint?>, points: seq<UnitPoint>, c: seq<int>, m: map<int, seq<int>>, d: nat)
    requires CubeGraph(m, d) && ClosedWalk(m, 0, c) && |graph| == |c|
    requires forall k :: 0 <= k < |c| ==> 0 <= c[k] < |points|
    requires forall k :: 0 <= k < |c| ==> graph[k] == points[c[k]] && points[c[k]].value == c[k]
    ensures forall k :: 0 <= k < |graph| - 1 ==> CubeSegment(graph, k, d)
  {
    forall k | 0 <= k < |graph| - 1 ensures CubeSegment(graph, k, d) {
      assert c[k] in m && c[k + 1] in m[c[k]];
      var x: nat := c[k];
      assert IsFlip(x, c[k + 1], d);
    }
  }
}
