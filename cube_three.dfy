/**
 * The 3-cube, worked through concretely: its twelve edges, the lists `createAdjacency` merges
 * from them, and the repair, which pairs 6 with 7, 4 with 5, 2 with 3 and 0 with 1, so the build
 * of the 3-cube succeeds.
 */
module CubeThree {
  import opened Wrappers
  import opened Bits
  import opened Sequences
  import opened OrderedMaps
  import opened UnitPoints
  import opened UnitLines
  import opened EulerianCircuits
  import opened MergeProperties
  import opened Hypercubes

  /** The main corners below 8 are 0, 3, 5 and 6. */
  lemma ThreeAnchors(n: nat)
    requires n == 8
    ensures Anchors(n) == [0, 3, 5, 6]
  {
    assert Anchors(4) == [0, 3];
  }

  /** The flips of one anchor of the 3-cube. */
  lemma FlipsOf(a: nat, x: nat, y: nat, z: nat)
    requires Xor(a, 1) == x && Xor(a, 2) == y && Xor(a, 4) == z
    ensures Flips(a, 3) == [(a, x), (a, y), (a, z)]
  {
    assert Pow2(0) == 1 && Pow2(1) == 2 && Pow2(2) == 4;
  }

  /** The one-bit flips of the anchors 0, 3, 5 and 6. */
  lemma XorsOfZero() ensures Xor(0, 1) == 1 && Xor(0, 2) == 2 && Xor(0, 4) == 4 {}
  lemma XorsOfThree() ensures Xor(3, 1) == 2 && Xor(3, 2) == 1 && Xor(3, 4) == 7 {}
  lemma XorsOfFive() ensures Xor(5, 1) == 4 && Xor(5, 2) == 7 && Xor(5, 4) == 1 {}
  lemma XorsOfSix() ensures Xor(6, 1) == 7 && Xor(6, 2) == 4 && Xor(6, 4) == 2 {}

  /** The edges of the 3-cube's first anchor. */
  lemma EdgesOfAnchors1()
    ensures EdgePairs([0], 3) == [(0, 1), (0, 2), (0, 4)]
  {
    XorsOfZero();
    FlipsOf(0, 1, 2, 4);
    assert [0][..0] == [];
  }

  /** The edges of the first two of the 3-cube's anchors. */
  lemma EdgesOfAnchors2()
    ensures EdgePairs([0, 3], 3) == [(0, 1), (0, 2), (0, 4), (3, 2), (3, 1), (3, 7)]
  {
    EdgesOfAnchors1();
    XorsOfThree();
    FlipsOf(3, 2, 1, 7);
    assert [0, 3][..1] == [0];
  }

  /** The edges of the first three of the 3-cube's anchors. */
  lemma EdgesOfAnchors3()
    ensures EdgePairs([0, 3, 5], 3) == [(0, 1), (0, 2), (0, 4), (3, 2), (3, 1), (3, 7), (5, 4), (5, 7), (5, 1)]
  {
    EdgesOfAnchors2();
    XorsOfFive();
    FlipsOf(5, 4, 7, 1);
    assert [0, 3, 5][..2] == [0, 3];
  }

  /** The edges of all four of the 3-cube's anchors. */
  lemma EdgesOfAnchors4()
    ensures EdgePairs([0, 3, 5, 6], 3) == [(0, 1), (0, 2), (0, 4), (3, 2), (3, 1), (3, 7), (5, 4), (5, 7), (5, 1), (6, 7), (6, 4), (6, 2)]
  {
    EdgesOfAnchors3();
    XorsOfSix();
    FlipsOf(6, 7, 4, 2);
    assert [0, 3, 5, 6][..3] == [0, 3, 5];
  }

  /** The 3-cube's edges, anchor by anchor and bit by bit. */
  lemma ThreeEdges(d: nat)
    requires d == 3
    ensures CubeEdges(d) == [(0, 1), (0, 2), (0, 4), (3, 2), (3, 1), (3, 7),
                             (5, 4), (5, 7), (5, 1), (6, 7), (6, 4), (6, 2)]
  {
    var n := Pow2(d);
    assert n == 8;
    ThreeAnchors(n);
    EdgesOfAnchors4();
  }

  /** The same, edge by edge. */
  lemma ThreeEdgesAt(d: nat)
    requires d == 3
    ensures |CubeEdges(d)| == 12 &&
      CubeEdges(d)[0] == (0, 1) && CubeEdges(d)[1] == (0, 2) && CubeEdges(d)[2] == (0, 4) &&
      CubeEdges(d)[3] == (3, 2) && CubeEdges(d)[4] == (3, 1) && CubeEdges(d)[5] == (3, 7) &&
      CubeEdges(d)[6] == (5, 4) && CubeEdges(d)[7] == (5, 7) && CubeEdges(d)[8] == (5, 1) &&
      CubeEdges(d)[9] == (6, 7) && CubeEdges(d)[10] == (6, 4) && CubeEdges(d)[11] == (6, 2)
  {
    ThreeEdges(d);
  }

  /** Merging the edge `a`-`b` into `g` for `a != b`: the entry under `a`, then the entry under `b`. */
  lemma MergeStep(edges: seq<UnitLine>, k: nat, a: int, b: int)
    requires k < |edges| && Ends(edges[k]) == (a, b) && a != b
    ensures Merge(edges[..k + 1]) == MergeEntry(MergeEntry(Merge(edges[..k]), a, [b]), b, [a])
  {
    var e := edges[k];
    var c := e.adjacencySet;
    assert c == Contribution(a, b);
    assert c.keys == [a, b] && c.entries[a] == [b] && c.entries[b] == [a];
    assert edges[..k + 1][..k] == edges[..k];
    var g := Merge(edges[..k]);
    assert MergeKeys(g, c, 1) == MergeEntry(g, a, [b]);
  }

  /** No list of the merge repeats a neighbour. */

  /** No list of the merge repeats a neighbour. */
  lemma MergeListsNoDup(edges: seq<UnitLine>)
    ensures ListsNoDup(Merge(edges))
  {
    MergeDescribes(edges);
  }

  /** A known key whose list lacks `v`: the merge appends `v` and keeps the key order. */
  lemma MergeEntryKnown(g: Graph, key: int, v: int)
    requires g.Valid() && ListsNoDup(g) && key in g.entries && v !in g.entries[key]
    ensures ListsNoDup(MergeEntry(g, key, [v]))
    ensures MergeEntry(g, key, [v]) == OMap(g.keys, g.entries[key := g.entries[key] + [v]])
  {
    var s := g.entries[key];
    assert NoDup(s + [v]) by {
      assert forall i :: 0 <= i < |s| ==> (s + [v])[i] == s[i];
    }
    DedupDistinct(s + [v]);
    MergeEntrySpec(g, key, v);
  }

  /** A new key takes the one-element list and goes to the end of the key order. */
  lemma MergeEntryNew(g: Graph, key: int, v: int)
    requires g.Valid() && ListsNoDup(g) && key !in g.entries
    ensures ListsNoDup(MergeEntry(g, key, [v]))
    ensures MergeEntry(g, key, [v]) == OMap(g.keys + [key], g.entries[key := [v]])
  {
    MergeEntrySpec(g, key, v);
  }

  /** The lists `createAdjacency` has built after the first `k` of the 3-cube's edges. */
  ghost predicate MergedThree(k: nat, g: Graph)
  {
    g.Valid() && ListsNoDup(g) &&
    match k
    case 0 => g.keys == []
    case 1 => g.keys == [0, 1] && g.entries.Keys == {0, 1} && g.entries[0] == [1] &&
      g.entries[1] == [0]
    case 2 => g.keys == [0, 1, 2] && g.entries.Keys == {0, 1, 2} && g.entries[0] == [1, 2] &&
      g.entries[1] == [0] && g.entries[2] == [0]
    case 3 => g.keys == [0, 1, 2, 4] && g.entries.Keys == {0, 1, 2, 4} &&
      g.entries[0] == [1, 2, 4] && g.entries[1] == [0] && g.entries[2] == [0] &&
      g.entries[4] == [0]
    case 4 => g.keys == [0, 1, 2, 4, 3] && g.entries.Keys == {0, 1, 2, 4, 3} &&
      g.entries[0] == [1, 2, 4] && g.entries[1] == [0] && g.entries[2] == [0, 3] &&
      g.entries[4] == [0] && g.entries[3] == [2]
    case 5 => g.keys == [0, 1, 2, 4, 3] && g.entries.Keys == {0, 1, 2, 4, 3} &&
      g.entries[0] == [1, 2, 4] && g.entries[1] == [0, 3] && g.entries[2] == [0, 3] &&
      g.entries[4] == [0] && g.entries[3] == [2, 1]
    case 6 => g.keys == [0, 1, 2, 4, 3, 7] && g.entries.Keys == {0, 1, 2, 4, 3, 7} &&
      g.entries[0] == [1, 2, 4] && g.entries[1] == [0, 3] && g.entries[2] == [0, 3] &&
      g.entries[4] == [0] && g.entries[3] == [2, 1, 7] && g.entries[7] == [3]
    case 7 => g.keys == [0, 1, 2, 4, 3, 7, 5] && g.entries.Keys == {0, 1, 2, 4, 3, 7, 5} &&
      g.entries[0] == [1, 2, 4] && g.entries[1] == [0, 3] && g.entries[2] == [0, 3] &&
      g.entries[4] == [0, 5] && g.entries[3] == [2, 1, 7] && g.entries[7] == [3] &&
      g.entries[5] == [4]
    case 8 => g.keys == [0, 1, 2, 4, 3, 7, 5] && g.entries.Keys == {0, 1, 2, 4, 3, 7, 5} &&
      g.entries[0] == [1, 2, 4] && g.entries[1] == [0, 3] && g.entries[2] == [0, 3] &&
      g.entries[4] == [0, 5] && g.entries[3] == [2, 1, 7] && g.entries[7] == [3, 5] &&
      g.entries[5] == [4, 7]
    case 9 => g.keys == [0, 1, 2, 4, 3, 7, 5] && g.entries.Keys == {0, 1, 2, 4, 3, 7, 5} &&
      g.entries[0] == [1, 2, 4] && g.entries[1] == [0, 3, 5] && g.entries[2] == [0, 3] &&
      g.entries[4] == [0, 5] && g.entries[3] == [2, 1, 7] && g.entries[7] == [3, 5] &&
      g.entries[5] == [4, 7, 1]
    case 10 => g.keys == [0, 1, 2, 4, 3, 7, 5, 6] && g.entries.Keys == {0, 1, 2, 4, 3, 7, 5, 6} &&
      g.entries[0] == [1, 2, 4] && g.entries[1] == [0, 3, 5] && g.entries[2] == [0, 3] &&
      g.entries[4] == [0, 5] && g.entries[3] == [2, 1, 7] && g.entries[7] == [3, 5, 6] &&
      g.entries[5] == [4, 7, 1] && g.entries[6] == [7]
    case 11 => g.keys == [0, 1, 2, 4, 3, 7, 5, 6] && g.entries.Keys == {0, 1, 2, 4, 3, 7, 5, 6} &&
      g.entries[0] == [1, 2, 4] && g.entries[1] == [0, 3, 5] && g.entries[2] == [0, 3] &&
      g.entries[4] == [0, 5, 6] && g.entries[3] == [2, 1, 7] && g.entries[7] == [3, 5, 6] &&
      g.entries[5] == [4, 7, 1] && g.entries[6] == [7, 4]
    case 12 => g.keys == [0, 1, 2, 4, 3, 7, 5, 6] && g.entries.Keys == {0, 1, 2, 4, 3, 7, 5, 6} &&
      g.entries[0] == [1, 2, 4] && g.entries[1] == [0, 3, 5] && g.entries[2] == [0, 3, 6] &&
      g.entries[4] == [0, 5, 6] && g.entries[3] == [2, 1, 7] && g.entries[7] == [3, 5, 6] &&
      g.entries[5] == [4, 7, 1] && g.entries[6] == [7, 4, 2]
    case _ => false
  }

  /** Edge 0, 0-1, merged into the lists built from the edges before it, key by key. */
  lemma MergeThreeLists0(g: Graph)
    requires g.Valid() && ListsNoDup(g)
    requires g.keys == []
    ensures var r := MergeEntry(MergeEntry(g, 0, [1]), 1, [0]);
      r.Valid() && ListsNoDup(r) &&
      r.keys == [0, 1] && r.entries.Keys == {0, 1} && r.entries[0] == [1] &&
      r.entries[1] == [0]
  {
    MergeEntryNew(g, 0, 1);
    var g1 := MergeEntry(g, 0, [1]);
    MergeEntryNew(g1, 1, 0);
  }

  /** The same, from `MergedThree(0, g)` to `MergedThree(1, ...)`. */
  lemma MergeThreeStep0(g: Graph)
    requires MergedThree(0, g)
    ensures MergedThree(1, MergeEntry(MergeEntry(g, 0, [1]), 1, [0]))
  {
    MergeThreeLists0(g);
  }

  /** The same for the merge of the first edge of any list whose edge 0 is 0-1. */
  lemma MergeThreeEdge0(edges: seq<UnitLine>)
    requires 0 < |edges| && Ends(edges[0]) == (0, 1) && MergedThree(0, Merge(edges[..0]))
    ensures MergedThree(1, Merge(edges[..1]))
  {
    var g := Merge(edges[..0]);
    MergeThreeStep0(g);
    MergeStep(edges, 0, 0, 1);
  }

  /** Edge 1, 0-2, merged into the lists built from the edges before it, key by key. */
  lemma MergeThreeLists1(g: Graph)
    requires g.Valid() && ListsNoDup(g)
    requires g.keys == [0, 1] && g.entries.Keys == {0, 1} && g.entries[0] == [1] &&
      g.entries[1] == [0]
    ensures var r := MergeEntry(MergeEntry(g, 0, [2]), 2, [0]);
      r.Valid() && ListsNoDup(r) &&
      r.keys == [0, 1, 2] && r.entries.Keys == {0, 1, 2} && r.entries[0] == [1, 2] &&
      r.entries[1] == [0] && r.entries[2] == [0]
  {
    MergeEntryKnown(g, 0, 2);
    var g1 := MergeEntry(g, 0, [2]);
    MergeEntryNew(g1, 2, 0);
  }

  /** The same, from `MergedThree(1, g)` to `MergedThree(2, ...)`. */
  lemma MergeThreeStep1(g: Graph)
    requires MergedThree(1, g)
    ensures MergedThree(2, MergeEntry(MergeEntry(g, 0, [2]), 2, [0]))
  {
    MergeThreeLists1(g);
  }

  /** The same for the merge of the first 2 edges of any list whose edge 1 is 0-2. */
  lemma MergeThreeEdge1(edges: seq<UnitLine>)
    requires 1 < |edges| && Ends(edges[1]) == (0, 2) && MergedThree(1, Merge(edges[..1]))
    ensures MergedThree(2, Merge(edges[..2]))
  {
    var g := Merge(edges[..1]);
    MergeThreeStep1(g);
    MergeStep(edges, 1, 0, 2);
  }

  /** Edge 2, 0-4, merged into the lists built from the edges before it, key by key. */
  lemma MergeThreeLists2(g: Graph)
    requires g.Valid() && ListsNoDup(g)
    requires g.keys == [0, 1, 2] && g.entries.Keys == {0, 1, 2} && g.entries[0] == [1, 2] &&
      g.entries[1] == [0] && g.entries[2] == [0]
    ensures var r := MergeEntry(MergeEntry(g, 0, [4]), 4, [0]);
      r.Valid() && ListsNoDup(r) &&
      r.keys == [0, 1, 2, 4] && r.entries.Keys == {0, 1, 2, 4} &&
      r.entries[0] == [1, 2, 4] && r.entries[1] == [0] && r.entries[2] == [0] &&
      r.entries[4] == [0]
  {
    MergeEntryKnown(g, 0, 4);
    var g1 := MergeEntry(g, 0, [4]);
    MergeEntryNew(g1, 4, 0);
  }

  /** The same, from `MergedThree(2, g)` to `MergedThree(3, ...)`. */
  lemma MergeThreeStep2(g: Graph)
    requires MergedThree(2, g)
    ensures MergedThree(3, MergeEntry(MergeEntry(g, 0, [4]), 4, [0]))
  {
    MergeThreeLists2(g);
  }

  /** The same for the merge of the first 3 edges of any list whose edge 2 is 0-4. */
  lemma MergeThreeEdge2(edges: seq<UnitLine>)
    requires 2 < |edges| && Ends(edges[2]) == (0, 4) && MergedThree(2, Merge(edges[..2]))
    ensures MergedThree(3, Merge(edges[..3]))
  {
    var g := Merge(edges[..2]);
    MergeThreeStep2(g);
    MergeStep(edges, 2, 0, 4);
  }

  /** Edge 3, 3-2, merged into the lists built from the edges before it, key by key. */
  lemma MergeThreeLists3(g: Graph)
    requires g.Valid() && ListsNoDup(g)
    requires g.keys == [0, 1, 2, 4] && g.entries.Keys == {0, 1, 2, 4} &&
      g.entries[0] == [1, 2, 4] && g.entries[1] == [0] && g.entries[2] == [0] &&
      g.entries[4] == [0]
    ensures var r := MergeEntry(MergeEntry(g, 3, [2]), 2, [3]);
      r.Valid() && ListsNoDup(r) &&
      r.keys == [0, 1, 2, 4, 3] && r.entries.Keys == {0, 1, 2, 4, 3} &&
      r.entries[0] == [1, 2, 4] && r.entries[1] == [0] && r.entries[2] == [0, 3] &&
      r.entries[4] == [0] && r.entries[3] == [2]
  {
    MergeEntryNew(g, 3, 2);
    var g1 := MergeEntry(g, 3, [2]);
    MergeEntryKnown(g1, 2, 3);
  }

  /** The same, from `MergedThree(3, g)` to `MergedThree(4, ...)`. */
  lemma MergeThreeStep3(g: Graph)
    requires MergedThree(3, g)
    ensures MergedThree(4, MergeEntry(MergeEntry(g, 3, [2]), 2, [3]))
  {
    MergeThreeLists3(g);
  }

  /** The same for the merge of the first 4 edges of any list whose edge 3 is 3-2. */
  lemma MergeThreeEdge3(edges: seq<UnitLine>)
    requires 3 < |edges| && Ends(edges[3]) == (3, 2) && MergedThree(3, Merge(edges[..3]))
    ensures MergedThree(4, Merge(edges[..4]))
  {
    var g := Merge(edges[..3]);
    MergeThreeStep3(g);
    MergeStep(edges, 3, 3, 2);
  }

  /** Edge 4, 3-1, merged into the lists built from the edges before it, key by key. */
  lemma MergeThreeLists4(g: Graph)
    requires g.Valid() && ListsNoDup(g)
    requires g.keys == [0, 1, 2, 4, 3] && g.entries.Keys == {0, 1, 2, 4, 3} &&
      g.entries[0] == [1, 2, 4] && g.entries[1] == [0] && g.entries[2] == [0, 3] &&
      g.entries[4] == [0] && g.entries[3] == [2]
    ensures var r := MergeEntry(MergeEntry(g, 3, [1]), 1, [3]);
      r.Valid() && ListsNoDup(r) &&
      r.keys == [0, 1, 2, 4, 3] && r.entries.Keys == {0, 1, 2, 4, 3} &&
      r.entries[0] == [1, 2, 4] && r.entries[1] == [0, 3] && r.entries[2] == [0, 3] &&
      r.entries[4] == [0] && r.entries[3] == [2, 1]
  {
    MergeEntryKnown(g, 3, 1);
    var g1 := MergeEntry(g, 3, [1]);
    MergeEntryKnown(g1, 1, 3);
  }

  /** The same, from `MergedThree(4, g)` to `MergedThree(5, ...)`. */
  lemma MergeThreeStep4(g: Graph)
    requires MergedThree(4, g)
    ensures MergedThree(5, MergeEntry(MergeEntry(g, 3, [1]), 1, [3]))
  {
    MergeThreeLists4(g);
  }

  /** The same for the merge of the first 5 edges of any list whose edge 4 is 3-1. */
  lemma MergeThreeEdge4(edges: seq<UnitLine>)
    requires 4 < |edges| && Ends(edges[4]) == (3, 1) && MergedThree(4, Merge(edges[..4]))
    ensures MergedThree(5, Merge(edges[..5]))
  {
    var g := Merge(edges[..4]);
    MergeThreeStep4(g);
    MergeStep(edges, 4, 3, 1);
  }

  /** Edge 5, 3-7, merged into the lists built from the edges before it, key by key. */
  lemma MergeThreeLists5(g: Graph)
    requires g.Valid() && ListsNoDup(g)
    requires g.keys == [0, 1, 2, 4, 3] && g.entries.Keys == {0, 1, 2, 4, 3} &&
      g.entries[0] == [1, 2, 4] && g.entries[1] == [0, 3] && g.entries[2] == [0, 3] &&
      g.entries[4] == [0] && g.entries[3] == [2, 1]
    ensures var r := MergeEntry(MergeEntry(g, 3, [7]), 7, [3]);
      r.Valid() && ListsNoDup(r) &&
      r.keys == [0, 1, 2, 4, 3, 7] && r.entries.Keys == {0, 1, 2, 4, 3, 7} &&
      r.entries[0] == [1, 2, 4] && r.entries[1] == [0, 3] && r.entries[2] == [0, 3] &&
      r.entries[4] == [0] && r.entries[3] == [2, 1, 7] && r.entries[7] == [3]
  {
    MergeEntryKnown(g, 3, 7);
    var g1 := MergeEntry(g, 3, [7]);
    MergeEntryNew(g1, 7, 3);
  }

  /** The same, from `MergedThree(5, g)` to `MergedThree(6, ...)`. */
  lemma MergeThreeStep5(g: Graph)
    requires MergedThree(5, g)
    ensures MergedThree(6, MergeEntry(MergeEntry(g, 3, [7]), 7, [3]))
  {
    MergeThreeLists5(g);
  }

  /** The same for the merge of the first 6 edges of any list whose edge 5 is 3-7. */
  lemma MergeThreeEdge5(edges: seq<UnitLine>)
    requires 5 < |edges| && Ends(edges[5]) == (3, 7) && MergedThree(5, Merge(edges[..5]))
    ensures MergedThree(6, Merge(edges[..6]))
  {
    var g := Merge(edges[..5]);
    MergeThreeStep5(g);
    MergeStep(edges, 5, 3, 7);
  }

  /** Edge 6, 5-4, merged into the lists built from the edges before it, key by key. */
  lemma MergeThreeLists6(g: Graph)
    requires g.Valid() && ListsNoDup(g)
    requires g.keys == [0, 1, 2, 4, 3, 7] && g.entries.Keys == {0, 1, 2, 4, 3, 7} &&
      g.entries[0] == [1, 2, 4] && g.entries[1] == [0, 3] && g.entries[2] == [0, 3] &&
      g.entries[4] == [0] && g.entries[3] == [2, 1, 7] && g.entries[7] == [3]
    ensures var r := MergeEntry(MergeEntry(g, 5, [4]), 4, [5]);
      r.Valid() && ListsNoDup(r) &&
      r.keys == [0, 1, 2, 4, 3, 7, 5] && r.entries.Keys == {0, 1, 2, 4, 3, 7, 5} &&
      r.entries[0] == [1, 2, 4] && r.entries[1] == [0, 3] && r.entries[2] == [0, 3] &&
      r.entries[4] == [0, 5] && r.entries[3] == [2, 1, 7] && r.entries[7] == [3] &&
      r.entries[5] == [4]
  {
    MergeEntryNew(g, 5, 4);
    var g1 := MergeEntry(g, 5, [4]);
    MergeEntryKnown(g1, 4, 5);
  }

  /** The same, from `MergedThree(6, g)` to `MergedThree(7, ...)`. */
  lemma MergeThreeStep6(g: Graph)
    requires MergedThree(6, g)
    ensures MergedThree(7, MergeEntry(MergeEntry(g, 5, [4]), 4, [5]))
  {
    MergeThreeLists6(g);
  }

  /** The same for the merge of the first 7 edges of any list whose edge 6 is 5-4. */
  lemma MergeThreeEdge6(edges: seq<UnitLine>)
    requires 6 < |edges| && Ends(edges[6]) == (5, 4) && MergedThree(6, Merge(edges[..6]))
    ensures MergedThree(7, Merge(edges[..7]))
  {
    var g := Merge(edges[..6]);
    MergeThreeStep6(g);
    MergeStep(edges, 6, 5, 4);
  }

  /** Edge 7, 5-7, merged into the lists built from the edges before it, key by key. */
  lemma MergeThreeLists7(g: Graph)
    requires g.Valid() && ListsNoDup(g)
    requires g.keys == [0, 1, 2, 4, 3, 7, 5] && g.entries.Keys == {0, 1, 2, 4, 3, 7, 5} &&
      g.entries[0] == [1, 2, 4] && g.entries[1] == [0, 3] && g.entries[2] == [0, 3] &&
      g.entries[4] == [0, 5] && g.entries[3] == [2, 1, 7] && g.entries[7] == [3] &&
      g.entries[5] == [4]
    ensures var r := MergeEntry(MergeEntry(g, 5, [7]), 7, [5]);
      r.Valid() && ListsNoDup(r) &&
      r.keys == [0, 1, 2, 4, 3, 7, 5] && r.entries.Keys == {0, 1, 2, 4, 3, 7, 5} &&
      r.entries[0] == [1, 2, 4] && r.entries[1] == [0, 3] && r.entries[2] == [0, 3] &&
      r.entries[4] == [0, 5] && r.entries[3] == [2, 1, 7] && r.entries[7] == [3, 5] &&
      r.entries[5] == [4, 7]
  {
    MergeEntryKnown(g, 5, 7);
    var g1 := MergeEntry(g, 5, [7]);
    MergeEntryKnown(g1, 7, 5);
  }

  /** The same, from `MergedThree(7, g)` to `MergedThree(8, ...)`. */
  lemma MergeThreeStep7(g: Graph)
    requires MergedThree(7, g)
    ensures MergedThree(8, MergeEntry(MergeEntry(g, 5, [7]), 7, [5]))
  {
    MergeThreeLists7(g);
  }

  /** The same for the merge of the first 8 edges of any list whose edge 7 is 5-7. */
  lemma MergeThreeEdge7(edges: seq<UnitLine>)
    requires 7 < |edges| && Ends(edges[7]) == (5, 7) && MergedThree(7, Merge(edges[..7]))
    ensures MergedThree(8, Merge(edges[..8]))
  {
    var g := Merge(edges[..7]);
    MergeThreeStep7(g);
    MergeStep(edges, 7, 5, 7);
  }

  /** Edge 8, 5-1, merged into the lists built from the edges before it, key by key. */
  lemma MergeThreeLists8(g: Graph)
    requires g.Valid() && ListsNoDup(g)
    requires g.keys == [0, 1, 2, 4, 3, 7, 5] && g.entries.Keys == {0, 1, 2, 4, 3, 7, 5} &&
      g.entries[0] == [1, 2, 4] && g.entries[1] == [0, 3] && g.entries[2] == [0, 3] &&
      g.entries[4] == [0, 5] && g.entries[3] == [2, 1, 7] && g.entries[7] == [3, 5] &&
      g.entries[5] == [4, 7]
    ensures var r := MergeEntry(MergeEntry(g, 5, [1]), 1, [5]);
      r.Valid() && ListsNoDup(r) &&
      r.keys == [0, 1, 2, 4, 3, 7, 5] && r.entries.Keys == {0, 1, 2, 4, 3, 7, 5} &&
      r.entries[0] == [1, 2, 4] && r.entries[1] == [0, 3, 5] && r.entries[2] == [0, 3] &&
      r.entries[4] == [0, 5] && r.entries[3] == [2, 1, 7] && r.entries[7] == [3, 5] &&
      r.entries[5] == [4, 7, 1]
  {
    MergeEntryKnown(g, 5, 1);
    var g1 := MergeEntry(g, 5, [1]);
    MergeEntryKnown(g1, 1, 5);
  }

  /** The same, from `MergedThree(8, g)` to `MergedThree(9, ...)`. */
  lemma MergeThreeStep8(g: Graph)
    requires MergedThree(8, g)
    ensures MergedThree(9, MergeEntry(MergeEntry(g, 5, [1]), 1, [5]))
  {
    MergeThreeLists8(g);
  }

  /** The same for the merge of the first 9 edges of any list whose edge 8 is 5-1. */
  lemma MergeThreeEdge8(edges: seq<UnitLine>)
    requires 8 < |edges| && Ends(edges[8]) == (5, 1) && MergedThree(8, Merge(edges[..8]))
    ensures MergedThree(9, Merge(edges[..9]))
  {
    var g := Merge(edges[..8]);
    MergeThreeStep8(g);
    MergeStep(edges, 8, 5, 1);
  }

  /** Edge 9, 6-7, merged into the lists built from the edges before it, key by key. */
  lemma MergeThreeLists9(g: Graph)
    requires g.Valid() && ListsNoDup(g)
    requires g.keys == [0, 1, 2, 4, 3, 7, 5] && g.entries.Keys == {0, 1, 2, 4, 3, 7, 5} &&
      g.entries[0] == [1, 2, 4] && g.entries[1] == [0, 3, 5] && g.entries[2] == [0, 3] &&
      g.entries[4] == [0, 5] && g.entries[3] == [2, 1, 7] && g.entries[7] == [3, 5] &&
      g.entries[5] == [4, 7, 1]
    ensures var r := MergeEntry(MergeEntry(g, 6, [7]), 7, [6]);
      r.Valid() && ListsNoDup(r) &&
      r.keys == [0, 1, 2, 4, 3, 7, 5, 6] && r.entries.Keys == {0, 1, 2, 4, 3, 7, 5, 6} &&
      r.entries[0] == [1, 2, 4] && r.entries[1] == [0, 3, 5] && r.entries[2] == [0, 3] &&
      r.entries[4] == [0, 5] && r.entries[3] == [2, 1, 7] && r.entries[7] == [3, 5, 6] &&
      r.entries[5] == [4, 7, 1] && r.entries[6] == [7]
  {
    MergeEntryNew(g, 6, 7);
    var g1 := MergeEntry(g, 6, [7]);
    MergeEntryKnown(g1, 7, 6);
  }

  /** The same, from `MergedThree(9, g)` to `MergedThree(10, ...)`. */
  lemma MergeThreeStep9(g: Graph)
    requires MergedThree(9, g)
    ensures MergedThree(10, MergeEntry(MergeEntry(g, 6, [7]), 7, [6]))
  {
    MergeThreeLists9(g);
  }

  /** The same for the merge of the first 10 edges of any list whose edge 9 is 6-7. */
  lemma MergeThreeEdge9(edges: seq<UnitLine>)
    requires 9 < |edges| && Ends(edges[9]) == (6, 7) && MergedThree(9, Merge(edges[..9]))
    ensures MergedThree(10, Merge(edges[..10]))
  {
    var g := Merge(edges[..9]);
    MergeThreeStep9(g);
    MergeStep(edges, 9, 6, 7);
  }

  /** Edge 10, 6-4, merged into the lists built from the edges before it, key by key. */
  lemma MergeThreeLists10(g: Graph)
    requires g.Valid() && ListsNoDup(g)
    requires g.keys == [0, 1, 2, 4, 3, 7, 5, 6] && g.entries.Keys == {0, 1, 2, 4, 3, 7, 5, 6} &&
      g.entries[0] == [1, 2, 4] && g.entries[1] == [0, 3, 5] && g.entries[2] == [0, 3] &&
      g.entries[4] == [0, 5] && g.entries[3] == [2, 1, 7] && g.entries[7] == [3, 5, 6] &&
      g.entries[5] == [4, 7, 1] && g.entries[6] == [7]
    ensures var r := MergeEntry(MergeEntry(g, 6, [4]), 4, [6]);
      r.Valid() && ListsNoDup(r) &&
      r.keys == [0, 1, 2, 4, 3, 7, 5, 6] && r.entries.Keys == {0, 1, 2, 4, 3, 7, 5, 6} &&
      r.entries[0] == [1, 2, 4] && r.entries[1] == [0, 3, 5] && r.entries[2] == [0, 3] &&
      r.entries[4] == [0, 5, 6] && r.entries[3] == [2, 1, 7] && r.entries[7] == [3, 5, 6] &&
      r.entries[5] == [4, 7, 1] && r.entries[6] == [7, 4]
  {
    MergeEntryKnown(g, 6, 4);
    var g1 := MergeEntry(g, 6, [4]);
    MergeEntryKnown(g1, 4, 6);
  }

  /** The same, from `MergedThree(10, g)` to `MergedThree(11, ...)`. */
  lemma MergeThreeStep10(g: Graph)
    requires MergedThree(10, g)
    ensures MergedThree(11, MergeEntry(MergeEntry(g, 6, [4]), 4, [6]))
  {
    MergeThreeLists10(g);
  }

  /** The same for the merge of the first 11 edges of any list whose edge 10 is 6-4. */
  lemma MergeThreeEdge10(edges: seq<UnitLine>)
    requires 10 < |edges| && Ends(edges[10]) == (6, 4) && MergedThree(10, Merge(edges[..10]))
    ensures MergedThree(11, Merge(edges[..11]))
  {
    var g := Merge(edges[..10]);
    MergeThreeStep10(g);
    MergeStep(edges, 10, 6, 4);
  }

  /** Edge 11, 6-2, merged into the lists built from the edges before it, key by key. */
  lemma MergeThreeLists11(g: Graph)
    requires g.Valid() && ListsNoDup(g)
    requires g.keys == [0, 1, 2, 4, 3, 7, 5, 6] && g.entries.Keys == {0, 1, 2, 4, 3, 7, 5, 6} &&
      g.entries[0] == [1, 2, 4] && g.entries[1] == [0, 3, 5] && g.entries[2] == [0, 3] &&
      g.entries[4] == [0, 5, 6] && g.entries[3] == [2, 1, 7] && g.entries[7] == [3, 5, 6] &&
      g.entries[5] == [4, 7, 1] && g.entries[6] == [7, 4]
    ensures var r := MergeEntry(MergeEntry(g, 6, [2]), 2, [6]);
      r.Valid() && ListsNoDup(r) &&
      r.keys == [0, 1, 2, 4, 3, 7, 5, 6] && r.entries.Keys == {0, 1, 2, 4, 3, 7, 5, 6} &&
      r.entries[0] == [1, 2, 4] && r.entries[1] == [0, 3, 5] && r.entries[2] == [0, 3, 6] &&
      r.entries[4] == [0, 5, 6] && r.entries[3] == [2, 1, 7] && r.entries[7] == [3, 5, 6] &&
      r.entries[5] == [4, 7, 1] && r.entries[6] == [7, 4, 2]
  {
    MergeEntryKnown(g, 6, 2);
    var g1 := MergeEntry(g, 6, [2]);
    MergeEntryKnown(g1, 2, 6);
  }

  /** The same, from `MergedThree(11, g)` to `MergedThree(12, ...)`. */
  lemma MergeThreeStep11(g: Graph)
    requires MergedThree(11, g)
    ensures MergedThree(12, MergeEntry(MergeEntry(g, 6, [2]), 2, [6]))
  {
    MergeThreeLists11(g);
  }

  /** The same for the merge of the first 12 edges of any list whose edge 11 is 6-2. */
  lemma MergeThreeEdge11(edges: seq<UnitLine>)
    requires 11 < |edges| && Ends(edges[11]) == (6, 2) && MergedThree(11, Merge(edges[..11]))
    ensures MergedThree(12, Merge(edges[..12]))
  {
    var g := Merge(edges[..11]);
    MergeThreeStep11(g);
    MergeStep(edges, 11, 6, 2);
  }

  /** The ends of the 3-cube's edges, one by one. */
  lemma ThreeEnds(edges: seq<UnitLine>)
    requires |Pairs(edges)| == 12 &&
      Pairs(edges)[0] == (0, 1) && Pairs(edges)[1] == (0, 2) && Pairs(edges)[2] == (0, 4) &&
      Pairs(edges)[3] == (3, 2) && Pairs(edges)[4] == (3, 1) && Pairs(edges)[5] == (3, 7) &&
      Pairs(edges)[6] == (5, 4) && Pairs(edges)[7] == (5, 7) && Pairs(edges)[8] == (5, 1) &&
      Pairs(edges)[9] == (6, 7) && Pairs(edges)[10] == (6, 4) && Pairs(edges)[11] == (6, 2)
    ensures |edges| == 12 &&
      Ends(edges[0]) == (0, 1) && Ends(edges[1]) == (0, 2) && Ends(edges[2]) == (0, 4) &&
      Ends(edges[3]) == (3, 2) && Ends(edges[4]) == (3, 1) && Ends(edges[5]) == (3, 7) &&
      Ends(edges[6]) == (5, 4) && Ends(edges[7]) == (5, 7) && Ends(edges[8]) == (5, 1) &&
      Ends(edges[9]) == (6, 7) && Ends(edges[10]) == (6, 4) && Ends(edges[11]) == (6, 2)
  {
    var p := Pairs(edges);
    assert |edges| == |p|;
  }

  /** The merge through edges 0 to 3. */
  lemma MergeThreeFrom0(edges: seq<UnitLine>)
    requires |edges| == 12 && MergedThree(0, Merge(edges[..0]))
    requires Ends(edges[0]) == (0, 1) && Ends(edges[1]) == (0, 2) && Ends(edges[2]) == (0, 4) && Ends(edges[3]) == (3, 2)
    ensures MergedThree(4, Merge(edges[..4]))
  {
    MergeThreeEdge0(edges);
    MergeThreeEdge1(edges);
    MergeThreeEdge2(edges);
    MergeThreeEdge3(edges);
  }

  /** The merge through edges 4 to 7. */
  lemma MergeThreeFrom4(edges: seq<UnitLine>)
    requires |edges| == 12 && MergedThree(4, Merge(edges[..4]))
    requires Ends(edges[4]) == (3, 1) && Ends(edges[5]) == (3, 7) && Ends(edges[6]) == (5, 4) && Ends(edges[7]) == (5, 7)
    ensures MergedThree(8, Merge(edges[..8]))
  {
    MergeThreeEdge4(edges);
    MergeThreeEdge5(edges);
    MergeThreeEdge6(edges);
    MergeThreeEdge7(edges);
  }

  /** The merge through edges 8 to 11. */
  lemma MergeThreeFrom8(edges: seq<UnitLine>)
    requires |edges| == 12 && MergedThree(8, Merge(edges[..8]))
    requires Ends(edges[8]) == (5, 1) && Ends(edges[9]) == (6, 7) && Ends(edges[10]) == (6, 4) && Ends(edges[11]) == (6, 2)
    ensures MergedThree(12, Merge(edges[..12]))
  {
    MergeThreeEdge8(edges);
    MergeThreeEdge9(edges);
    MergeThreeEdge10(edges);
    MergeThreeEdge11(edges);
  }

  /** Before the first edge the lists are empty. */
  lemma MergeThreeStart(edges: seq<UnitLine>)
    ensures MergedThree(0, Merge(edges[..0]))
  {
    assert edges[..0] == [];
    MergeListsNoDup(edges[..0]);
  }

  /** The merge of twelve edges whose ends are those of the 3-cube, in the same order. */
  lemma MergeThreeOfEnds(edges: seq<UnitLine>)
    requires |edges| == 12 &&
      Ends(edges[0]) == (0, 1) && Ends(edges[1]) == (0, 2) && Ends(edges[2]) == (0, 4) &&
      Ends(edges[3]) == (3, 2) && Ends(edges[4]) == (3, 1) && Ends(edges[5]) == (3, 7) &&
      Ends(edges[6]) == (5, 4) && Ends(edges[7]) == (5, 7) && Ends(edges[8]) == (5, 1) &&
      Ends(edges[9]) == (6, 7) && Ends(edges[10]) == (6, 4) && Ends(edges[11]) == (6, 2)
    ensures MergedThree(12, Merge(edges))
  {
    MergeThreeStart(edges);
    MergeThreeFrom0(edges);
    MergeThreeFrom4(edges);
    MergeThreeFrom8(edges);
    MergeThreeWhole(edges);
  }

  /** The merge of the first twelve of twelve edges is the merge of them all. */
  lemma MergeThreeWhole(edges: seq<UnitLine>)
    requires |edges| == 12 && MergedThree(12, Merge(edges[..12]))
    ensures MergedThree(12, Merge(edges))
  {
    MergeAll(edges);
  }

  /** Taking every edge as a prefix changes nothing. */
  lemma MergeAll(edges: seq<UnitLine>)
    ensures Merge(edges[..|edges|]) == Merge(edges)
  {
    assert edges[..|edges|] == edges;
  }

  /** `createAdjacency` on the 3-cube's edges. */
  lemma MergeThree(edges: seq<UnitLine>)
    requires Pairs(edges) == CubeEdges(3)
    ensures MergedThree(12, Merge(edges))
  {
    ThreeEdgesAt(3);
    ThreeEnds(edges);
    MergeThreeOfEnds(edges);
  }

  /** When every list has odd length, the worklist holds every key, in key order. */
  lemma {:induction false} AllOdd(g: Graph, n: nat)
    requires g.Valid() && n <= |g.keys|
    requires forall k :: k in g.entries ==> |g.entries[k]| % 2 == 1
    ensures OddPrefix(g, n) == g.keys[..n]
  {
    if n > 0 {
      AllOdd(g, n - 1);
      KeysInEntries(g, g.keys[n - 1]);
      assert g.keys[..n] == g.keys[..n - 1] + [g.keys[n - 1]];
    }
  }

  /** Removing the first occurrence of `x` from `a + [x] + b`, when `a` lacks it, leaves `a + b`. */
  lemma RemoveAfter(a: seq<int>, x: int, b: seq<int>)
    requires x !in a
    ensures var s := a + [x] + b; IndexOf(s, x) == |a| && RemoveAt(s, |a|) == a + b
  {
    var s := a + [x] + b;
    assert s[|a|] == x;
    assert forall k :: 0 <= k < |a| ==> s[k] == a[k];
    assert s[..|a|] == a && s[|a| + 1..] == b;
  }

  /**
   * One pass of the repair loop on the worklist `a + [node2] + b + [node1]` when `node2` heads
   * `node1`'s list and does not occur in `a`: `node1` is paired with `node2`, both leave the
   * worklist, and the loop goes on from `a + b` with one entry more in each of the two lists.
   */
  lemma RepairPair(g: Graph, a: seq<int>, node2: int, b: seq<int>, node1: int)
    requires g.Valid() && InGraph(g, a + [node2] + b + [node1])
    requires node2 !in a && node1 in g.entries && |g.entries[node1]| > 0 && g.entries[node1][0] == node2
    ensures node2 in g.entries && InGraph(Push(Push(g, node1, node2), node2, node1), a + b)
    ensures Repair(g, a + [node2] + b + [node1]) == Repair(Push(Push(g, node1, node2), node2, node1), a + b)
  {
    var rest := a + [node2] + b;
    var work := rest + [node1];
    assert work[..|work| - 1] == rest && work[|work| - 1] == node1;
    assert rest[|a|] == node2;
    assert FirstIn(g.entries[node1], rest) == Some(node2);
    RemoveAfter(a, node2, b);
    RepairUnfold(g, work);
  }

  /** The repair from the worklist [0, 1, 2, 4, 3, 7, 5, 6]: 6 is paired with 7, and the rest follows. */
  lemma RepairThreeFrom6(g: Graph, work: seq<int>)
    requires |work| == 8 && work[0] == 0 && work[1] == 1 && work[2] == 2 && work[3] == 4 && work[4] == 3 && work[5] == 7 && work[6] == 5 && work[7] == 6
    requires g.Valid() && InGraph(g, work)
    requires 6 in g.entries && |g.entries[6]| > 0 && g.entries[6][0] == 7 &&
      5 in g.entries && |g.entries[5]| > 0 && g.entries[5][0] == 4 &&
      3 in g.entries && |g.entries[3]| > 0 && g.entries[3][0] == 2 &&
      1 in g.entries && |g.entries[1]| > 0 && g.entries[1][0] == 0
    ensures Repair(g, work).Some?
  {
    var a, b := work[..5], work[6..7];
    assert work == a + [7] + b + [6];
    RepairPair(g, a, 7, b, 6);
    RepairThreeFrom5(Push(Push(g, 6, 7), 7, 6), a + b);
  }

  /** The repair from the worklist [0, 1, 2, 4, 3, 5]: 5 is paired with 4, and the rest follows. */
  lemma RepairThreeFrom5(g: Graph, work: seq<int>)
    requires |work| == 6 && work[0] == 0 && work[1] == 1 && work[2] == 2 && work[3] == 4 && work[4] == 3 && work[5] == 5
    requires g.Valid() && InGraph(g, work)
    requires 5 in g.entries && |g.entries[5]| > 0 && g.entries[5][0] == 4 &&
      3 in g.entries && |g.entries[3]| > 0 && g.entries[3][0] == 2 &&
      1 in g.entries && |g.entries[1]| > 0 && g.entries[1][0] == 0
    ensures Repair(g, work).Some?
  {
    var a, b := work[..3], work[4..5];
    assert work == a + [4] + b + [5];
    RepairPair(g, a, 4, b, 5);
    RepairThreeFrom3(Push(Push(g, 5, 4), 4, 5), a + b);
  }

  /** The repair from the worklist [0, 1, 2, 3]: 3 is paired with 2, and the rest follows. */
  lemma RepairThreeFrom3(g: Graph, work: seq<int>)
    requires |work| == 4 && work[0] == 0 && work[1] == 1 && work[2] == 2 && work[3] == 3
    requires g.Valid() && InGraph(g, work)
    requires 3 in g.entries && |g.entries[3]| > 0 && g.entries[3][0] == 2 &&
      1 in g.entries && |g.entries[1]| > 0 && g.entries[1][0] == 0
    ensures Repair(g, work).Some?
  {
    var a, b := work[..2], work[3..3];
    assert work == a + [2] + b + [3];
    RepairPair(g, a, 2, b, 3);
    RepairThreeFrom1(Push(Push(g, 3, 2), 2, 3), a + b);
  }

  /** The repair from the worklist [0, 1]: 1 is paired with 0, which empties the worklist. */
  lemma RepairThreeFrom1(g: Graph, work: seq<int>)
    requires |work| == 2 && work[0] == 0 && work[1] == 1
    requires g.Valid() && InGraph(g, work)
    requires 1 in g.entries && |g.entries[1]| > 0 && g.entries[1][0] == 0
    ensures Repair(g, work).Some?
  {
    var a, b := work[..0], work[1..1];
    assert work == a + [0] + b + [1];
    RepairPair(g, a, 0, b, 1);
  }

  /** In the merged lists of the 3-cube every vertex has odd degree (three neighbours). */
  lemma ThreeDegrees(g: Graph)
    requires MergedThree(12, g)
    ensures g.Valid() && g.keys == [0, 1, 2, 4, 3, 7, 5, 6]
    ensures forall k :: k in g.entries ==> |g.entries[k]| == 3
    ensures 6 in g.entries && g.entries[6][0] == 7 && 5 in g.entries && g.entries[5][0] == 4
    ensures 3 in g.entries && g.entries[3][0] == 2 && 1 in g.entries && g.entries[1][0] == 0
  {
  }

  /** So the worklist is every key, in key order. */
  lemma ThreeOdd(g: Graph)
    requires MergedThree(12, g)
    ensures g.Valid() && var work := OddNodes(g);
      |work| == 8 && work[0] == 0 && work[1] == 1 && work[2] == 2 && work[3] == 4 && work[4] == 3 && work[5] == 7 && work[6] == 5 && work[7] == 6
    ensures 6 in g.entries && |g.entries[6]| > 0 && g.entries[6][0] == 7
    ensures 5 in g.entries && |g.entries[5]| > 0 && g.entries[5][0] == 4
    ensures 3 in g.entries && |g.entries[3]| > 0 && g.entries[3][0] == 2
    ensures 1 in g.entries && |g.entries[1]| > 0 && g.entries[1][0] == 0
  {
    ThreeDegrees(g);
    AllOdd(g, 8);
  }

  /**
   * The repair of the 3-cube's lists: from the worklist 0, 1, 2, 4, 3, 7, 5, 6 it pairs 6 with 7,
   * 5 with 4, 3 with 2 and 1 with 0, and never meets a vertex without an odd neighbour.
   */
  lemma RepairThree(g: Graph)
    requires MergedThree(12, g)
    ensures Repair(g, OddNodes(g)).Some?
  {
    ThreeOdd(g);
    RepairThreeFrom6(g, OddNodes(g));
  }

  /**
   * The build of the 3-cube succeeds: `createAdjacency` gives every vertex three neighbours, all
   * eight are odd, and the repair pairs them off as 6-7, 5-4, 3-2 and 1-0.
   */
  lemma CubeThreeBuild(edges: seq<UnitLine>)
    requires Pairs(edges) == CubeEdges(3)
    ensures Build(edges).Ok?
  {
    CubeFirstEdge(3);
    assert |edges| == |Pairs(edges)|;
    MergeThree(edges);
    RepairThree(Merge(edges));
  }
}
