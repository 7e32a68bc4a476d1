/**
 * What `addNecessaryEdges` achieves: starting from the odd vertices of a symmetric, closed,
 * loop-free graph, every successful repair leaves all degrees even, keeps the lists symmetric,
 * closed and loop-free, and gives each odd vertex exactly one extra entry at the end of its list.
 */
module RepairProperties {
  import opened Sequences
  import opened OrderedMaps
  import opened EulerianCircuits
  import opened GraphProperties

  /** `work` lists, once each, exactly the vertices of odd degree. */
  ghost predicate OddList(g: Graph, work: seq<int>)
  {
    NoDup(work) && InGraph(g, work) &&
    forall x :: x in g.entries ==> (|g.entries[x]| % 2 == 1 <==> x in work)
  }

  ghost predicate Sound(g: Graph)
  {
    g.Valid() && Symmetric(g.entries) && Closed(g.entries) && LoopFree(g.entries)
  }

  lemma {:induction false} OddPrefixSpec(g: Graph, n: nat)
    requires g.Valid() && n <= |g.keys|
    ensures NoDup(OddPrefix(g, n))
    ensures forall x :: x in OddPrefix(g, n) <==>
      x in g.keys[..n] && x in g.entries && |g.entries[x]| % 2 == 1
  {
    if n > 0 {
      OddPrefixSpec(g, n - 1);
      var key := g.keys[n - 1];
      KeysInEntries(g, key);
      assert g.keys[..n] == g.keys[..n - 1] + [key];
      var pre := g.keys[..n - 1];
      assert forall p :: 0 <= p < |pre| ==> pre[p] == g.keys[p];
      assert key !in pre;
      var prev := OddPrefix(g, n - 1);
      if |g.entries[key]| % 2 != 0 {
        var r := prev + [key];
        assert OddPrefix(g, n) == r;
        forall p, q | 0 <= p < q < |r| ensures r[p] != r[q] {
          if q == |prev| { assert r[p] == prev[p] && prev[p] in prev; }
        }
      }
    }
  }

  /** The worklist the source builds holds every odd vertex once, and nothing else. */
  lemma OddNodesSpec(g: Graph)
    requires g.Valid()
    ensures OddList(g, OddNodes(g))
  {
    OddPrefixSpec(g, |g.keys|);
    assert g.keys[..|g.keys|] == g.keys;
    forall x | x in g.entries ensures x in g.keys { KeysInEntries(g, x); }
  }

  /** Listing two distinct vertices under each other keeps a map symmetric, closed and loop-free. */
  lemma JoinSound(m: Lists, a: int, b: int)
    requires Symmetric(m) && Closed(m) && LoopFree(m) && a in m && b in m && a != b
    ensures var m' := m[a := m[a] + [b]][b := m[b] + [a]];
      Symmetric(m') && Closed(m') && LoopFree(m')
  {
    var m' := m[a := m[a] + [b]][b := m[b] + [a]];
    forall x, y | x in m' && y in m' ensures multiset(m'[x])[y] == multiset(m'[y])[x] {
      assert multiset(m[x])[y] == multiset(m[y])[x];
    }
  }

  /** Popping the last vertex and removing its partner leaves the rest of a duplicate-free worklist. */
  lemma WorklistStep(work: seq<int>, node2: int)
    requires NoDup(work) && |work| > 0 && node2 in work[..|work| - 1]
    ensures var rest := work[..|work| - 1];
      var rest' := RemoveAt(rest, IndexOf(rest, node2));
      node2 != work[|work| - 1] && NoDup(rest') &&
      forall x :: x in rest' <==> x in work && x != work[|work| - 1] && x != node2
  {
    var node1 := work[|work| - 1];
    var rest := work[..|work| - 1];
    NoDupPrefix(work, |work| - 1);
    NoDupRemoveAt(rest, IndexOf(rest, node2));
    assert work == rest + [node1];
    assert node1 !in rest by {
      forall p | 0 <= p < |rest| ensures rest[p] != node1 { assert rest[p] == work[p]; }
    }
  }

  /**
   * One pass of the repair loop: the popped vertex and its partner leave the worklist and are
   * appended to each other's lists; every other list stays as it was.
   */
  lemma {:induction false} RepairStep(g: Graph, work: seq<int>)
    requires Sound(g) && OddList(g, work) && |work| > 0 && work[|work| - 1] in g.entries
    requires FirstIn(g.entries[work[|work| - 1]], work[..|work| - 1]).Some?
    ensures var node1 := work[|work| - 1];
      var rest := work[..|work| - 1];
      var node2 := FirstIn(g.entries[node1], rest).value;
      var rest' := RemoveAt(rest, IndexOf(rest, node2));
      var g' := Push(Push(g, node1, node2), node2, node1);
      node1 != node2 && node2 in work && node2 in g.entries[node1] && node1 in g.entries[node2] &&
      (forall x :: x in rest' <==> x in work && x != node1 && x != node2) &&
      g'.entries == g.entries[node1 := g.entries[node1] + [node2]][node2 := g.entries[node2] + [node1]] &&
      Sound(g') && OddList(g', rest')
  {
    var node1 := work[|work| - 1];
    var rest := work[..|work| - 1];
    var node2 := FirstIn(g.entries[node1], rest).value;
    var i := IndexOf(rest, node2);
    var rest' := RemoveAt(rest, i);
    var g' := Push(Push(g, node1, node2), node2, node1);
    RepairUnfold(g, work);
    WorklistStep(work, node2);
    var m, m' := g.entries, g'.entries;
    assert m' == m[node1 := m[node1] + [node2]][node2 := m[node2] + [node1]];
    assert node2 in m;
    SymmetricListing(m, node1, node2);
    JoinSound(m, node1, node2);
    StepParity(m, work, rest', node1, node2);
  }

  /** Appending one entry to each of two odd lists makes both even and moves them off the worklist. */
  lemma StepParity(m: Lists, work: seq<int>, rest': seq<int>, node1: int, node2: int)
    requires node1 in m && node2 in m && node1 != node2
    requires forall x :: x in m ==> (|m[x]| % 2 == 1 <==> x in work)
    requires node1 in work && node2 in work
    requires forall x :: x in rest' <==> x in work && x != node1 && x != node2
    ensures var m' := m[node1 := m[node1] + [node2]][node2 := m[node2] + [node1]];
      forall x :: x in m' ==> (|m'[x]| % 2 == 1 <==> x in rest')
  {
    var m' := m[node1 := m[node1] + [node2]][node2 := m[node2] + [node1]];
    forall x | x in m' ensures |m'[x]| % 2 == 1 <==> x in rest' {
      assert x in m;
      if x == node1 || x == node2 {
        assert |m'[x]| == |m[x]| + 1;
      } else {
        assert m'[x] == m[x];
      }
    }
  }

  /**
   * A successful repair leaves every degree even, the lists symmetric, closed and loop-free
   * with the same keys, and each list extended at its end by one entry exactly when its vertex
   * was odd.
   */
  lemma {:induction false} RepairSpec(g: Graph, work: seq<int>)
    requires Sound(g) && OddList(g, work)
    ensures Repair(g, work).Some? ==>
      var r := Repair(g, work).value;
      Sound(r) && AllEven(r.entries) && r.keys == g.keys &&
      forall x :: x in g.entries ==>
        |r.entries[x]| == |g.entries[x]| + (if x in work then 1 else 0) &&
        g.entries[x] <= r.entries[x]
    decreases |work|
  {
    if |work| > 0 && Repair(g, work).Some? {
      var node1 := work[|work| - 1];
      var rest := work[..|work| - 1];
      var node2 := FirstIn(g.entries[node1], rest).value;
      var rest' := RemoveAt(rest, IndexOf(rest, node2));
      var g' := Push(Push(g, node1, node2), node2, node1);
      RepairStep(g, work);
      assert Repair(g, work) == Repair(g', rest');
      RepairSpec(g', rest');
      var r := Repair(g, work).value;
      forall x | x in g.entries
        ensures |r.entries[x]| == |g.entries[x]| + (if x in work then 1 else 0)
        ensures g.entries[x] <= r.entries[x]
      {
        assert g.entries[x] <= g'.entries[x];
      }
    }
  }

  /** The entries a successful repair adds are vertices already listed there: no new adjacency appears. */
  lemma {:induction false} RepairAddsNoNeighbour(g: Graph, work: seq<int>)
    requires Sound(g) && OddList(g, work)
    ensures Repair(g, work).Some? ==>
      var r := Repair(g, work).value;
      forall x, y :: x in g.entries && y in r.entries[x] ==> y in g.entries[x]
    decreases |work|
  {
    if |work| > 0 && Repair(g, work).Some? {
      var node1 := work[|work| - 1];
      var rest := work[..|work| - 1];
      var node2 := FirstIn(g.entries[node1], rest).value;
      var rest' := RemoveAt(rest, IndexOf(rest, node2));
      var g' := Push(Push(g, node1, node2), node2, node1);
      RepairStep(g, work);
      assert Repair(g, work) == Repair(g', rest');
      RepairAddsNoNeighbour(g', rest');
      var r := Repair(g, work).value;
      var m, m' := g.entries, g'.entries;
      forall x, y | x in m && y in r.entries[x] ensures y in m[x] {
        assert x in m' && y in m'[x];
        if x == node2 {
          assert m'[x] == m[x] + [node1];
        } else if x == node1 {
          assert m'[x] == m[x] + [node2];
        } else {
          assert m'[x] == m[x];
        }
      }
    }
  }

  /** When every degree is even the worklist is empty: there is nothing to repair. */
  lemma {:induction false} EvenHasNoOdd(g: Graph, n: nat)
    requires g.Valid() && AllEven(g.entries) && n <= |g.keys|
    ensures OddPrefix(g, n) == []
  {
    if n > 0 {
      EvenHasNoOdd(g, n - 1);
      KeysInEntries(g, g.keys[n - 1]);
    }
  }
}
