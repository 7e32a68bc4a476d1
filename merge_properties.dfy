/**
 * What `createAdjacency` builds: one duplicate-free list per endpoint, holding exactly that
 * vertex's neighbours over all edges, so that the merged lists are symmetric.
 */
module MergeProperties {
  import opened Sequences
  import opened OrderedMaps
  import opened UnitLines
  import opened EulerianCircuits
  import opened GraphProperties

  /** The endpoint values of every edge, in order. */
  function Pairs(edges: seq<UnitLine>): (p: seq<(int, int)>)
    ensures |p| == |edges| && forall i :: 0 <= i < |edges| ==> p[i] == Ends(edges[i])
  {
    if |edges| == 0 then [] else Pairs(edges[..|edges| - 1]) + [Ends(edges[|edges| - 1])]
  }

  /** Every endpoint of the pairs. */
  ghost function Endpoints(pairs: seq<(int, int)>): set<int>
  {
    if |pairs| == 0 then {}
    else
      var (a, b) := pairs[|pairs| - 1];
      Endpoints(pairs[..|pairs| - 1]) + {a, b}
  }

  /** The vertices paired with `x`. */
  ghost function Neighbours(pairs: seq<(int, int)>, x: int): set<int>
  {
    if |pairs| == 0 then {}
    else
      var (a, b) := pairs[|pairs| - 1];
      Neighbours(pairs[..|pairs| - 1], x) + (if a == x then {b} else {}) + (if b == x then {a} else {})
  }

  /** `g` lists every endpoint once, each with its neighbours and nothing else, without repeats. */
  ghost predicate Describes(g: Graph, edges: seq<UnitLine>)
  {
    g.Valid() && g.entries.Keys == Endpoints(Pairs(edges)) &&
    forall x :: x in g.entries ==>
      NoDup(g.entries[x]) && forall y :: y in g.entries[x] <==> y in Neighbours(Pairs(edges), x)
  }

  ghost predicate ListsNoDup(g: Graph)
  {
    forall x :: x in g.entries ==> NoDup(g.entries[x])
  }

  /** `r` is `g` with `v` listed under `k` (once), and nothing else changed as a set. */
  ghost predicate Adds(g: Graph, r: Graph, k: int, v: int)
  {
    r.entries.Keys == g.entries.Keys + {k} && ListsNoDup(r) &&
    forall x, y :: x in r.entries ==>
      (y in r.entries[x] <==> (x in g.entries && y in g.entries[x]) || (x == k && y == v))
  }

  /** `r` is `g` with `a` and `b` listed under each other. */
  ghost predicate Joins(g: Graph, r: Graph, a: int, b: int)
  {
    r.entries.Keys == g.entries.Keys + {a, b} && ListsNoDup(r) &&
    forall x, y :: x in r.entries ==>
      (y in r.entries[x] <==>
        (x in g.entries && y in g.entries[x]) || (x == a && y == b) || (x == b && y == a))
  }

  lemma MergeEntrySpec(g: Graph, key: int, v: int)
    requires g.Valid() && ListsNoDup(g)
    ensures Adds(g, MergeEntry(g, key, [v]), key, v)
  {
    var r := MergeEntry(g, key, [v]);
    if key in g.entries {
      var s := g.entries[key] + [v];
      var d := Dedup(s);
      assert r.entries == g.entries[key := d];
      forall y ensures y in d <==> y in s {
        if y in d {
          var i :| 0 <= i < |d| && d[i] == y;
        }
        if y in s {
          var i :| 0 <= i < |s| && s[i] == y;
        }
      }
    } else {
      assert r.entries == g.entries[key := [v]];
    }
  }

  lemma AddsTwice(g: Graph, g1: Graph, r: Graph, a: int, b: int)
    requires Adds(g, g1, a, b) && Adds(g1, r, b, a)
    ensures Joins(g, r, a, b)
  {
    forall x, y | x in r.entries
      ensures y in r.entries[x] <==>
        (x in g.entries && y in g.entries[x]) || (x == a && y == b) || (x == b && y == a)
    {
      if x in g1.entries {
        assert y in g1.entries[x] <==> (x in g.entries && y in g.entries[x]) || (x == a && y == b);
      }
    }
  }

  lemma MergeDistinctEdge(g: Graph, e: UnitLine)
    requires g.Valid() && ListsNoDup(g) && Ends(e).0 != Ends(e).1
    ensures Joins(g, MergeEdge(g, e), Ends(e).0, Ends(e).1)
  {
    var (a, b) := Ends(e);
    var c := e.adjacencySet;
    assert c == Contribution(a, b);
    assert c.keys == [a, b];
    assert MergeKeys(g, c, 0) == g;
    assert c.keys[0] == a && c.entries[a] == [b];
    var g1 := MergeKeys(g, c, 1);
    assert g1 == MergeEntry(g, a, [b]);
    MergeEntrySpec(g, a, b);
    assert MergeEdge(g, e) == MergeEntry(g1, b, [a]);
    MergeEntrySpec(g1, b, a);
    AddsTwice(g, g1, MergeEdge(g, e), a, b);
  }

  lemma MergeSelfEdge(g: Graph, e: UnitLine)
    requires g.Valid() && ListsNoDup(g) && Ends(e).0 == Ends(e).1
    ensures Joins(g, MergeEdge(g, e), Ends(e).0, Ends(e).1)
  {
    var a := Ends(e).0;
    var c := e.adjacencySet;
    assert c == Contribution(a, a);
    assert c.keys == [a];
    assert MergeKeys(g, c, 0) == g;
    assert c.keys[0] == a && c.entries[a] == [a];
    assert MergeEdge(g, e) == MergeEntry(g, a, [a]);
    MergeEntrySpec(g, a, a);
  }

  /** Merging one edge adds its endpoints and lists each under the other. */
  lemma MergeEdgeSpec(g: Graph, e: UnitLine)
    requires g.Valid() && ListsNoDup(g)
    ensures Joins(g, MergeEdge(g, e), Ends(e).0, Ends(e).1)
  {
    if Ends(e).0 != Ends(e).1 { MergeDistinctEdge(g, e); } else { MergeSelfEdge(g, e); }
  }

  /** The neighbours of `x` over edges that end with `e`. */
  lemma NeighboursStep(edges: seq<UnitLine>, x: int, y: int)
    requires |edges| > 0
    ensures var (a, b) := Ends(edges[|edges| - 1]);
      Pairs(edges)[..|edges| - 1] == Pairs(edges[..|edges| - 1]) &&
      Endpoints(Pairs(edges)) == Endpoints(Pairs(edges[..|edges| - 1])) + {a, b} &&
      (y in Neighbours(Pairs(edges), x) <==>
        y in Neighbours(Pairs(edges[..|edges| - 1]), x) || (x == a && y == b) || (x == b && y == a))
  {
    assert Pairs(edges)[..|edges| - 1] == Pairs(edges[..|edges| - 1]);
  }

  /** The merged map lists every endpoint once, with exactly its neighbours and no repeats. */
  lemma {:induction false} MergeDescribes(edges: seq<UnitLine>)
    ensures Describes(Merge(edges), edges)
  {
    if |edges| > 0 {
      var prefix := edges[..|edges| - 1];
      var g := Merge(prefix);
      var r := Merge(edges);
      MergeDescribes(prefix);
      var e := edges[|edges| - 1];
      assert r == MergeEdge(g, e);
      MergeEdgeSpec(g, e);
      assert Joins(g, r, Ends(e).0, Ends(e).1);
      NeighboursStep(edges, 0, 0);
      assert r.entries.Keys == Endpoints(Pairs(edges));
      forall x, y | x in r.entries
        ensures y in r.entries[x] <==> y in Neighbours(Pairs(edges), x)
      {
        NeighboursStep(edges, x, y);
        if x in g.entries {
          assert y in g.entries[x] <==> y in Neighbours(Pairs(prefix), x);
        } else if y in Neighbours(Pairs(prefix), x) {
          NeighboursSymmetric(Pairs(prefix), x, y);
          NeighboursAreEndpoints(Pairs(prefix), y, x);
        }
      }
    }
  }

  lemma {:induction false} NeighboursSymmetric(pairs: seq<(int, int)>, x: int, y: int)
    ensures y in Neighbours(pairs, x) <==> x in Neighbours(pairs, y)
  {
    if |pairs| > 0 { NeighboursSymmetric(pairs[..|pairs| - 1], x, y); }
  }

  lemma {:induction false} NeighboursAreEndpoints(pairs: seq<(int, int)>, x: int, y: int)
    requires y in Neighbours(pairs, x)
    ensures y in Endpoints(pairs)
  {
    var prefix := pairs[..|pairs| - 1];
    if y in Neighbours(prefix, x) { NeighboursAreEndpoints(prefix, x, y); }
  }

  /** No pair joins a vertex to itself. */
  ghost predicate Proper(pairs: seq<(int, int)>)
  {
    forall i :: 0 <= i < |pairs| ==> pairs[i].0 != pairs[i].1
  }

  lemma {:induction false} ProperNoSelfNeighbour(pairs: seq<(int, int)>, x: int)
    requires Proper(pairs)
    ensures x !in Neighbours(pairs, x)
  {
    if |pairs| > 0 {
      var prefix := pairs[..|pairs| - 1];
      assert Proper(prefix) by {
        forall i | 0 <= i < |prefix| ensures prefix[i].0 != prefix[i].1 {
          assert prefix[i] == pairs[i];
        }
      }
      ProperNoSelfNeighbour(prefix, x);
    }
  }

  /** `y` is paired with `x` exactly when some pair joins them, in either order. */
  lemma {:induction false} NeighboursMeaning(pairs: seq<(int, int)>, x: int, y: int)
    ensures y in Neighbours(pairs, x) <==>
      exists i :: 0 <= i < |pairs| && (pairs[i] == (x, y) || pairs[i] == (y, x))
  {
    if |pairs| > 0 {
      var prefix := pairs[..|pairs| - 1];
      NeighboursMeaning(prefix, x, y);
      if exists i :: 0 <= i < |pairs| && (pairs[i] == (x, y) || pairs[i] == (y, x)) {
        var i :| 0 <= i < |pairs| && (pairs[i] == (x, y) || pairs[i] == (y, x));
        if i < |prefix| { assert prefix[i] == pairs[i]; }
      }
      if exists i :: 0 <= i < |prefix| && (prefix[i] == (x, y) || prefix[i] == (y, x)) {
        var i :| 0 <= i < |prefix| && (prefix[i] == (x, y) || prefix[i] == (y, x));
        assert pairs[i] == prefix[i];
      }
    }
  }

  /** `v` is an endpoint exactly when some pair has it on one side. */
  lemma {:induction false} EndpointsMeaning(pairs: seq<(int, int)>, v: int)
    ensures v in Endpoints(pairs) <==> exists i :: 0 <= i < |pairs| && (pairs[i].0 == v || pairs[i].1 == v)
  {
    if |pairs| > 0 {
      var prefix := pairs[..|pairs| - 1];
      EndpointsMeaning(prefix, v);
      if exists i :: 0 <= i < |pairs| && (pairs[i].0 == v || pairs[i].1 == v) {
        var i :| 0 <= i < |pairs| && (pairs[i].0 == v || pairs[i].1 == v);
        if i < |prefix| { assert prefix[i] == pairs[i]; }
      }
      if exists i :: 0 <= i < |prefix| && (prefix[i].0 == v || prefix[i].1 == v) {
        var i :| 0 <= i < |prefix| && (prefix[i].0 == v || prefix[i].1 == v);
        assert pairs[i] == prefix[i];
      }
    }
  }

  /**
   * The merged lists are symmetric and closed; with no self-edge they are also loop-free.
   */
  lemma MergeSymmetric(edges: seq<UnitLine>)
    ensures Symmetric(Merge(edges).entries) && Closed(Merge(edges).entries)
    ensures Proper(Pairs(edges)) ==> LoopFree(Merge(edges).entries)
  {
    var m := Merge(edges).entries;
    MergeDescribes(edges);
    forall x, y | x in m && y in m ensures multiset(m[x])[y] == multiset(m[y])[x] {
      NoDupCount(m[x], y);
      NoDupCount(m[y], x);
      NeighboursSymmetric(Pairs(edges), x, y);
    }
    forall x, y | x in m && y in m[x] ensures y in m {
      NeighboursAreEndpoints(Pairs(edges), x, y);
    }
    if Proper(Pairs(edges)) {
      forall x | x in m ensures x !in m[x] { ProperNoSelfNeighbour(Pairs(edges), x); }
    }
  }

  // ---------------------------------------------------------------- key order

  lemma {:induction false} MergeExtends(edges: seq<UnitLine>, n: nat)
    requires n <= |edges|
    ensures Merge(edges[..n]).keys <= Merge(edges).keys
    decreases |edges| - n
  {
    if n < |edges| {
      var prefix := edges[..|edges| - 1];
      assert prefix[..n] == edges[..n];
      MergeExtends(prefix, n);
      PrefixTransitive(Merge(edges[..n]).keys, Merge(prefix).keys, Merge(edges).keys);
    } else {
      assert edges[..n] == edges;
    }
  }

  /** The merged map's first key, where the traversal starts, is the first edge's first endpoint. */
  lemma MergeFirstKey(edges: seq<UnitLine>)
    requires |edges| > 0
    ensures |Merge(edges).keys| > 0 && Merge(edges).keys[0] == edges[0].pointA.value
  {
    var e := edges[0];
    var c := e.adjacencySet;
    assert c == Contribution(e.pointA.value, e.pointB.value);
    assert c.keys[0] == e.pointA.value;
    assert edges[..1][..0] == [];
    assert Merge(edges[..1]) == MergeEdge(Empty(), e);
    KeysInEntries(c, c.keys[0]);
    assert MergeKeys(Empty(), c, 1).keys == [e.pointA.value];
    if |c.keys| == 2 {
      MergeKeysStep(Empty(), c, 1);
    }
    MergeExtends(edges, 1);
  }
}
