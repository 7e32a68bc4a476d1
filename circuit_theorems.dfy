/**
 * The constructor's result as a whole: on edges without self-loops, a successful build yields
 * repaired lists of even length that keep every original adjacency, and a circuit that is a
 * closed walk from the first edge's first endpoint; when that vertex reaches every other, the
 * circuit is Eulerian in the repaired lists: it takes every repaired edge exactly once, so it
 * visits every endpoint and has one element more than there are repaired edges.
 */
module CircuitTheorems {
  import opened Wrappers
  import opened Sequences
  import opened OrderedMaps
  import opened UnitLines
  import opened EulerianCircuits
  import opened GraphProperties
  import opened MergeProperties
  import opened RepairProperties
  import opened TraversalProperties

  /** The merged lists of edges without self-loops satisfy what the repair needs. */
  lemma MergeSound(edges: seq<UnitLine>)
    requires Proper(Pairs(edges))
    ensures Sound(Merge(edges)) && OddList(Merge(edges), OddNodes(Merge(edges)))
  {
    MergeSymmetric(edges);
    OddNodesSpec(Merge(edges));
  }

  lemma RepairOfEven(g: Graph)
    requires g.Valid() && AllEven(g.entries)
    ensures Repair(g, OddNodes(g)) == Some(g)
  {
    EvenHasNoOdd(g, |g.keys|);
  }

  /** With every degree already even, the worklist is empty and the repair returns the merged lists. */
  lemma BuildKeepsEvenGraph(edges: seq<UnitLine>)
    requires |edges| > 0 && AllEven(Merge(edges).entries)
    ensures |Merge(edges).keys| > 0
    ensures Build(edges) == Ok((Merge(edges), CircuitOf(Merge(edges))))
  {
    MergeHasKeys(edges);
    RepairOfEven(Merge(edges));
  }

  /**
   * A successful build on edges without self-loops: the repaired lists are symmetric, closed,
   * loop-free and even, keep the merged key order and every original adjacency, and the
   * circuit is a closed walk through them from the first edge's first endpoint.
   */
  lemma BuildIsClosedWalk(edges: seq<UnitLine>)
    requires Proper(Pairs(edges)) && Build(edges).Ok?
    ensures var (r, c) := Build(edges).value;
      Sound(r) && AllEven(r.entries) && r.keys == Merge(edges).keys &&
      ClosedWalk(r.entries, edges[0].pointA.value, c) &&
      forall x, y :: x in Merge(edges).entries && y in Merge(edges).entries[x] ==>
        x in r.entries && y in r.entries[x]
  {
    var g := Merge(edges);
    MergeSound(edges);
    RepairSpec(g, OddNodes(g));
    var r := Repair(g, OddNodes(g)).value;
    MergeFirstKey(edges);
    MergeHasKeys(edges);
    CircuitIsClosedWalk(r);
    forall x, y | x in g.entries && y in g.entries[x] ensures x in r.entries && y in r.entries[x] {
      assert g.entries[x] <= r.entries[x];
      var i :| 0 <= i < |g.entries[x]| && g.entries[x][i] == y;
      assert r.entries[x][i] == y;
    }
  }

  /** A path through lists stays a path when the lists only gain entries. */
  lemma PathWidens(g: Lists, r: Lists, p: seq<int>)
    requires Path(g, p)
    requires g.Keys <= r.Keys
    requires forall x :: x in g ==> g[x] <= r[x]
    ensures Path(r, p)
  {
    forall i | 0 <= i < |p| ensures p[i] in r {
      assert p[i] in g;
    }
    forall i | 0 <= i < |p| - 1 ensures p[i] in r && p[i + 1] in r[p[i]] {
      var x := p[i];
      assert x in g && p[i + 1] in g[x];
      var k :| 0 <= k < |g[x]| && g[x][k] == p[i + 1];
      assert r[x][k] == p[i + 1];
    }
  }

  /**
   * When the first endpoint reaches every vertex of the merged lists, the circuit of a
   * successful build is Eulerian in the repaired lists: it steps between two distinct vertices
   * exactly as often as one is listed under the other, visits every endpoint, and has one
   * element more than half the number of repaired entries.
   */
  lemma BuildIsEulerian(edges: seq<UnitLine>)
    requires Proper(Pairs(edges)) && Build(edges).Ok?
    requires Connected(Merge(edges).entries, edges[0].pointA.value)
    ensures var (r, c) := Build(edges).value;
      UsesEachEntryOnce(r.entries, c) &&
      |c| == Total(r.keys, r.entries) / 2 + 1 &&
      forall x :: x in Endpoints(Pairs(edges)) ==> x in c
  {
    var g := Merge(edges);
    var s := edges[0].pointA.value;
    BuildIsClosedWalk(edges);
    MergeSound(edges);
    RepairSpec(g, OddNodes(g));
    var r := Repair(g, OddNodes(g)).value;
    MergeDescribes(edges);
    MergeFirstKey(edges);
    assert r.entries.Keys == g.entries.Keys by {
      KeysListed(g);
      KeysListed(r);
      forall k ensures k in r.entries <==> k in g.entries {
        KeysInEntries(g, k);
        KeysInEntries(r, k);
      }
    }
    assert forall x :: x in g.entries ==> g.entries[x] <= r.entries[x];
    forall v | v in r.entries ensures exists p :: Path(r.entries, p) && p[0] == s && p[|p| - 1] == v {
      var p :| Path(g.entries, p) && p[0] == s && p[|p| - 1] == v;
      PathWidens(g.entries, r.entries, p);
    }
    CircuitCoversGraph(r);
    CircuitUsesEachEntryOnce(r);
  }
}
