/**
 * The Eulerian circuit of a hypercube. The lists `createAdjacency` builds from the d-cube's edges
 * (1 <= d <= 4) give every value below 2^d exactly its d one-bit neighbours, so vertex 0 reaches
 * every vertex. The circuit of any successful build is a closed walk from 0 that uses each
 * repaired edge exactly once, so it takes every edge of the d-cube and no other step; for even d
 * nothing needs repairing and each cube edge is taken exactly once, and for d = 1 the circuit
 * is 0, 1, 0.
 */
module CubeTheorems {
  import opened Wrappers
  import opened Bits
  import opened Sequences
  import opened OrderedMaps
  import opened UnitPoints
  import opened UnitLines
  import opened EulerianCircuits
  import opened GraphProperties
  import opened MergeProperties
  import opened RepairProperties
  import opened TraversalProperties
  import opened CircuitTheorems
  import opened Hypercubes

  /** No hypercube edge is a self-loop. */
  lemma CubeProper(d: nat)
    requires d <= 4
    ensures Proper(CubeEdges(d))
  {
    CubeEdgesShape(d);
  }

  /** `y` is `x` with one of its low `d` bits flipped. */
  ghost predicate IsFlip(x: nat, y: int, d: nat)
  {
    exists i :: 0 <= i < d && y == Xor(x, Pow2(i))
  }

  /** Lists holding the d-cube: a list for every value below 2^d, listing exactly its one-bit flips. */
  ghost predicate CubeGraph(m: Lists, d: nat)
  {
    (forall v :: v in m <==> 0 <= v < Pow2(d)) &&
    forall x: nat, y :: x in m ==> (y in m[x] <==> IsFlip(x, y, d))
  }

  /** `y` is paired with `x` exactly when `x` is below 2^d and `y` is `x` with one low bit flipped. */
  lemma CubeNeighbours(d: nat, x: nat, y: nat)
    requires d <= 4
    ensures y in Neighbours(CubeEdges(d), x) <==> x < Pow2(d) && IsFlip(x, y, d)
  {
    var e := CubeEdges(d);
    NeighboursMeaning(e, x, y);
    if y in Neighbours(e, x) {
      var k :| 0 <= k < |e| && (e[k] == (x, y) || e[k] == (y, x));
      CubeEdgeShape(d, k);
      var i := Split(k, d).1;
      if e[k] == (y, x) {
        XorTwice(y, Pow2(i));
      }
      assert y == Xor(x, Pow2(i));
    }
    if x < Pow2(d) && IsFlip(x, y, d) {
      var i :| 0 <= i < d && y == Xor(x, Pow2(i));
      CubeEdgesComplete(d, x, i);
      var k :| 0 <= k < |e| && SameEdge(e[k], (x, Xor(x, Pow2(i))));
      assert e[k] == (x, y) || e[k] == (y, x);
    }
  }

  /** The endpoints of the d-cube's edges are exactly the values below 2^d. */
  lemma CubeEndpoints(d: nat, v: int)
    requires 1 <= d <= 4
    ensures v in Endpoints(CubeEdges(d)) <==> 0 <= v < Pow2(d)
  {
    var e := CubeEdges(d);
    EndpointsMeaning(e, v);
    if v in Endpoints(e) {
      var k :| 0 <= k < |e| && (e[k].0 == v || e[k].1 == v);
      CubeEdgeShape(d, k);
    }
    if 0 <= v < Pow2(d) {
      var w := Xor(v, Pow2(0));
      FlipStaysBelow(v, 0, d);
      XorTwice(v, Pow2(0));
      assert v == Xor(w, Pow2(0));
      CubeNeighbours(d, w, v);
      NeighboursAreEndpoints(e, w, v);
    }
  }

  lemma CubeListed(d: nat, x: nat, y: int)
    requires 1 <= d <= 4 && x < Pow2(d)
    ensures y in Neighbours(CubeEdges(d), x) <==> IsFlip(x, y, d)
  {
    if y in Neighbours(CubeEdges(d), x) {
      NeighboursAreEndpoints(CubeEdges(d), x, y);
      CubeEndpoints(d, y);
    }
    if y >= 0 {
      CubeNeighbours(d, x, y);
    }
  }

  /** The merged lists of the d-cube's edges hold the d-cube. */
  lemma CubeLists(edges: seq<UnitLine>, d: nat)
    requires 1 <= d <= 4 && Pairs(edges) == CubeEdges(d)
    ensures CubeGraph(Merge(edges).entries, d)
  {
    var m := Merge(edges).entries;
    MergeDescribes(edges);
    forall v ensures v in m <==> 0 <= v < Pow2(d) {
      CubeEndpoints(d, v);
    }
    forall x: nat, y | x in m ensures y in m[x] <==> IsFlip(x, y, d) {
      CubeListed(d, x, y);
    }
  }

  /** A duplicate-free list of exactly the one-bit flips of `v` has `d` entries. */
  lemma FlipListLength(list: seq<int>, v: nat, d: nat)
    requires NoDup(list) && forall y :: y in list <==> IsFlip(v, y, d)
    ensures |list| == d
  {
    var f := seq(d, i requires 0 <= i < d => Xor(v, Pow2(i)));
    forall i, j | 0 <= i < j < d ensures f[i] != f[j] {
      FlipsDiffer(v, i, j);
    }
    forall y ensures y in list <==> y in f {
      if IsFlip(v, y, d) {
        var i :| 0 <= i < d && y == Xor(v, Pow2(i));
        assert f[i] == y;
      }
    }
    NoDupSameLength(list, f);
  }

  /** Every vertex of the d-cube has exactly `d` neighbours in the merged lists. */
  lemma CubeDegree(edges: seq<UnitLine>, d: nat)
    requires 1 <= d <= 4 && Pairs(edges) == CubeEdges(d)
    ensures forall x :: x in Merge(edges).entries ==> |Merge(edges).entries[x]| == d
  {
    var m := Merge(edges).entries;
    CubeLists(edges, d);
    MergeDescribes(edges);
    forall x | x in m ensures |m[x]| == d {
      var v: nat := x;
      FlipListLength(m[x], v, d);
    }
  }

  /** A path through the d-cube from 0 to `v`, clearing the lowest set bit one step at a time. */
  ghost function ZeroPath(m: Lists, d: nat, v: nat): (p: seq<int>)
    requires CubeGraph(m, d) && v < Pow2(d)
    ensures Path(m, p) && p[0] == 0 && p[|p| - 1] == v
    decreases v
  {
    if v == 0 then
      [0]
    else
      var i := LowestBit(v);
      LowestBitBelow(v, d);
      var u := Xor(v, Pow2(i));
      XorClearsBit(v, i);
      var q := ZeroPath(m, d, u);
      PathStep(m, d, q, u, i);
      XorTwice(v, Pow2(i));
      q + [v]
  }

  /** Extending a path that ends at `u` by a one-bit flip of `u` gives a path. */
  lemma PathStep(m: Lists, d: nat, q: seq<int>, u: nat, i: nat)
    requires CubeGraph(m, d) && Path(m, q) && q[|q| - 1] == u && u < Pow2(d) && i < d
    ensures Path(m, q + [Xor(u, Pow2(i))])
  {
    var v := Xor(u, Pow2(i));
    assert IsFlip(u, v, d);
    FlipStaysBelow(u, i, d);
    var p := q + [v];
    forall j | 0 <= j < |p| - 1 ensures p[j] in m && p[j + 1] in m[p[j]] {
      if j < |q| - 1 {
        assert p[j] == q[j] && p[j + 1] == q[j + 1];
      }
    }
  }

  /** Vertex 0 reaches every vertex of the merged d-cube lists. */
  lemma CubeConnected(edges: seq<UnitLine>, d: nat)
    requires 1 <= d <= 4 && Pairs(edges) == CubeEdges(d)
    ensures Connected(Merge(edges).entries, 0)
  {
    var m := Merge(edges).entries;
    CubeLists(edges, d);
    forall v | v in m ensures exists p :: Path(m, p) && p[0] == 0 && p[|p| - 1] == v {
      var p := ZeroPath(m, d, v);
    }
  }

  /**
   * For the d-cube's edges, a successful build gives even, symmetric, loop-free lists on the
   * values below 2^d and an Eulerian circuit in them from vertex 0 back to 0: it takes each pair
   * of repaired entries exactly once, visits every value below 2^d, every step joins a value and
   * one of its one-bit flips, and every edge of the d-cube is among its steps.
   */
  lemma CubeCircuit(edges: seq<UnitLine>, d: nat)
    requires 1 <= d <= 4 && Pairs(edges) == CubeEdges(d) && Build(edges).Ok?
    ensures var (r, c) := Build(edges).value;
      Sound(r) && AllEven(r.entries) && ClosedWalk(r.entries, 0, c) &&
      UsesEachEntryOnce(r.entries, c) &&
      |c| == Total(r.keys, r.entries) / 2 + 1 &&
      (forall v :: v in r.entries <==> 0 <= v < Pow2(d)) &&
      forall v :: 0 <= v < Pow2(d) ==> v in c
  {
    CubeKeysKept(edges, d);
    CubeProper(d);
    CubeFirstEdge(d);
    assert Ends(edges[0]) == Pairs(edges)[0];
    CubeConnected(edges, d);
    BuildIsClosedWalk(edges);
    BuildIsEulerian(edges);
    forall v | 0 <= v < Pow2(d) ensures v in Build(edges).value.1 {
      CubeEndpoints(d, v);
    }
  }

  /** The repaired lists of the d-cube list only one-bit flips, and every one-bit flip at least once. */
  lemma CubeRepairedLists(edges: seq<UnitLine>, d: nat)
    requires 1 <= d <= 4 && Pairs(edges) == CubeEdges(d) && Build(edges).Ok?
    ensures var r := Build(edges).value.0.entries;
      forall x: nat, y :: x in r ==> (y in r[x] <==> IsFlip(x, y, d))
  {
    var g := Merge(edges);
    CubeProper(d);
    MergeSound(edges);
    RepairSpec(g, OddNodes(g));
    RepairAddsNoNeighbour(g, OddNodes(g));
    CubeLists(edges, d);
    var r := Build(edges).value.0.entries;
    assert r == Repair(g, OddNodes(g)).value.entries;
    forall x: nat, y | x in r ensures y in r[x] <==> IsFlip(x, y, d) {
      assert x in g.entries by {
        KeysInEntries(g, x);
        KeysInEntries(Build(edges).value.0, x);
      }
      if IsFlip(x, y, d) {
        assert y in g.entries[x];
        var i :| 0 <= i < |g.entries[x]| && g.entries[x][i] == y;
        assert g.entries[x] <= r[x];
        assert r[x][i] == y;
      }
    }
  }

  /** Every step of the d-cube's circuit is a cube edge, and every cube edge is a step. */
  lemma CubeSteps(edges: seq<UnitLine>, d: nat)
    requires 1 <= d <= 4 && Pairs(edges) == CubeEdges(d) && Build(edges).Ok?
    ensures var c := Build(edges).value.1;
      (forall i :: 0 <= i < |c| - 1 ==> 0 <= c[i] && IsFlip(c[i], c[i + 1], d)) &&
      forall x: nat, y :: x < Pow2(d) && IsFlip(x, y, d) ==> Steps(c, x, y) > 0
  {
    var (r, c) := Build(edges).value;
    CubeCircuit(edges, d);
    CubeRepairedLists(edges, d);
    forall i | 0 <= i < |c| - 1 ensures 0 <= c[i] && IsFlip(c[i], c[i + 1], d) {
      assert c[i] in r.entries && c[i + 1] in r.entries[c[i]];
    }
    forall x: nat, y | x < Pow2(d) && IsFlip(x, y, d) ensures Steps(c, x, y) > 0 {
      assert x in r.entries && y in r.entries[x];
      var k :| 0 <= k < d && y == Xor(x, Pow2(k));
      FlipStaysBelow(x, k, d);
      assert multiset(r.entries[x])[y] > 0;
    }
  }

  /** A successful build keeps the merged keys, which are the values below 2^d. */
  lemma CubeKeysKept(edges: seq<UnitLine>, d: nat)
    requires 1 <= d <= 4 && Pairs(edges) == CubeEdges(d) && Build(edges).Ok?
    ensures forall v :: v in Build(edges).value.0.entries <==> 0 <= v < Pow2(d)
  {
    var g := Merge(edges);
    var r := Build(edges).value.0;
    assert r.keys == g.keys && r.Valid();
    CubeLists(edges, d);
    forall v ensures v in r.entries <==> v in g.entries {
      KeysInEntries(g, v);
      KeysInEntries(r, v);
    }
  }

  /** For d = 2 and d = 4 every degree of the merged lists is even. */
  lemma CubeEvenDegrees(edges: seq<UnitLine>, d: nat)
    requires (d == 2 || d == 4) && Pairs(edges) == CubeEdges(d)
    ensures AllEven(Merge(edges).entries)
  {
    CubeDegree(edges, d);
    var m := Merge(edges).entries;
    forall x | x in m ensures |m[x]| % 2 == 0 {
      assert |m[x]| == d;
    }
  }

  /** For d = 2 and d = 4 the repair adds nothing and the build succeeds on the merged lists. */
  lemma CubeEvenBuild(edges: seq<UnitLine>, d: nat)
    requires (d == 2 || d == 4) && Pairs(edges) == CubeEdges(d)
    ensures |Merge(edges).keys| > 0
    ensures Build(edges) == Ok((Merge(edges), CircuitOf(Merge(edges))))
  {
    CubeEvenDegrees(edges, d);
    CubeFirstEdge(d);
    assert |edges| == |Pairs(edges)|;
    BuildKeepsEvenGraph(edges);
  }

  /**
   * For d = 2 and d = 4 nothing is repaired and the merged lists repeat no neighbour, so the
   * circuit takes every edge of the d-cube exactly once.
   */
  lemma CubeEvenCircuit(edges: seq<UnitLine>, d: nat)
    requires (d == 2 || d == 4) && Pairs(edges) == CubeEdges(d)
    ensures Build(edges).Ok?
    ensures forall x: nat, y :: x < Pow2(d) && IsFlip(x, y, d) ==> Steps(Build(edges).value.1, x, y) == 1
  {
    CubeEvenBuild(edges, d);
    CubeCircuit(edges, d);
    var g := Merge(edges);
    var c := Build(edges).value.1;
    MergeDescribes(edges);
    CubeLists(edges, d);
    forall x: nat, y | x < Pow2(d) && IsFlip(x, y, d) ensures Steps(c, x, y) == 1 {
      var k :| 0 <= k < d && y == Xor(x, Pow2(k));
      FlipStaysBelow(x, k, d);
      assert x in g.entries && y in g.entries[x];
      NoDupCount(g.entries[x], y);
    }
  }

  /**
   * A single edge 0-1: both endpoints are odd, the repair doubles the edge, and the build
   * succeeds on the lists 0: [1, 1], 1: [0, 0].
   */
  lemma SingleEdgeBuild(edges: seq<UnitLine>)
    requires |edges| == 1 && Ends(edges[0]) == (0, 1)
    ensures Merge(edges) == OMap([0, 1], map[0 := [1], 1 := [0]])
    ensures Build(edges).Ok? && Build(edges).value.0 == OMap([0, 1], map[0 := [1, 1], 1 := [0, 0]])
  {
    var e := edges[0];
    var c := e.adjacencySet;
    assert c == Contribution(0, 1);
    assert c.keys == [0, 1] && c.entries[0] == [1] && c.entries[1] == [0];
    assert edges[..0] == [];
    var g1 := MergeEntry(Empty(), 0, [1]);
    assert g1 == OMap([0], map[0 := [1]]);
    assert MergeKeys(Empty(), c, 1) == g1;
    var g := MergeEntry(g1, 1, [0]);
    assert g == OMap([0, 1], map[0 := [1], 1 := [0]]);
    assert Merge(edges) == g;
    assert OddPrefix(g, 1) == [0];
    assert OddNodes(g) == [0, 1];
    assert FirstIn(g.entries[1], [0]) == Some(0);
    assert RemoveAt([0], 0) == [];
    var h := Push(g, 1, 0);
    assert g.entries[1] + [0] == [0, 0];
    assert h.keys == [0, 1] && h.entries == g.entries[1 := [0, 0]];
    assert h == OMap([0, 1], map[0 := [1], 1 := [0, 0]]);
    var g' := Push(h, 0, 1);
    assert h.entries[0] + [1] == [1, 1];
    assert g'.keys == [0, 1] && g'.entries == h.entries[0 := [1, 1]];
    assert g' == OMap([0, 1], map[0 := [1, 1], 1 := [0, 0]]);
    assert Repair(g, [0, 1]) == Repair(g', []);
  }

  /** The 1-cube's only edge is 0-1, so its build succeeds. */
  lemma CubeOneBuild(edges: seq<UnitLine>)
    requires Pairs(edges) == CubeEdges(1)
    ensures Build(edges).Ok?
  {
    CubeEdgesCount(1);
    CubeFirstEdge(1);
    assert |edges| == |Pairs(edges)| == 1;
    assert Ends(edges[0]) == Pairs(edges)[0];
    SingleEdgeBuild(edges);
  }

  /** The 1-cube's circuit goes along its one edge and back along the copy the repair added. */
  lemma OneCubeCircuit(edges: seq<UnitLine>)
    requires Pairs(edges) == CubeEdges(1)
    ensures Build(edges).Ok? && Build(edges).value.1 == [0, 1, 0]
  {
    CubeEdgesCount(1);
    CubeFirstEdge(1);
    assert |edges| == |Pairs(edges)| == 1;
    assert Ends(edges[0]) == Pairs(edges)[0];
    SingleEdgeBuild(edges);
    CubeCircuit(edges, 1);
    var (r, c) := Build(edges).value;
    DoubledEdgeWalk(r, c);
  }

  /** In the lists 0: [1, 1], 1: [0, 0] the only closed walk from 0 of three elements is 0, 1, 0. */
  lemma DoubledEdgeWalk(r: Graph, c: seq<int>)
    requires r == OMap([0, 1], map[0 := [1, 1], 1 := [0, 0]])
    requires ClosedWalk(r.entries, 0, c) && |c| == Total(r.keys, r.entries) / 2 + 1
    ensures c == [0, 1, 0]
  {
    assert Total(r.keys, r.entries) == 4;
    assert c[1] in r.entries[0];
  }
}
