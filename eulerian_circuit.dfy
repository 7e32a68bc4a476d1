/**
 * The Eulerian circuit builder: merge the edges' adjacency maps, repair odd degrees by
 * duplicating one entry between two odd neighbours, and walk the repaired lists with a stack
 * (Hierholzer's algorithm). Each step is a method over the object's state, specified by the
 * function of the same meaning below it.
 */
module EulerianCircuits {
  import opened Wrappers
  import opened Sequences
  import opened OrderedMaps
  import opened UnitLines

  type Graph = OMap<int, seq<int>>

  // ---------------------------------------------------------------- createAdjacency

  /** One `forEach` entry of the merge: a new key takes the edge's list, a known key the duplicate-free union. */
  function MergeEntry(g: Graph, key: int, value: seq<int>): (r: Graph)
    requires g.Valid()
    ensures r.Valid()
    ensures key in g.entries ==> r.keys == g.keys
    ensures key !in g.entries ==> r.keys == g.keys + [key]
    ensures g.keys <= r.keys
  {
    if key in g.entries then g.Set(key, Dedup(g.entries[key] + value)) else g.Set(key, value)
  }

  /** The first `n` entries of an edge's map, merged into `g` in that map's key order. */
  function MergeKeys(g: Graph, c: Graph, n: nat): (r: Graph)
    requires g.Valid() && c.Valid() && n <= |c.keys|
    ensures r.Valid()
    ensures g.keys <= r.keys
    ensures n > 0 ==> |r.keys| > 0
  {
    if n == 0 then g
    else
      var key := c.keys[n - 1];
      KeysInEntries(c, key);
      MergeEntry(MergeKeys(g, c, n - 1), key, c.entries[key])
  }

  function MergeEdge(g: Graph, e: UnitLine): (r: Graph)
    requires g.Valid()
    ensures r.Valid()
  {
    MergeKeys(g, e.adjacencySet, |e.adjacencySet.keys|)
  }

  /** The `reduce` over all edges, starting from an empty map. */
  function Merge(edges: seq<UnitLine>): (r: Graph)
    ensures r.Valid()
  {
    if |edges| == 0 then Empty() else MergeEdge(Merge(edges[..|edges| - 1]), edges[|edges| - 1])
  }

  // ---------------------------------------------------------------- addNecessaryEdges

  /** The keys among the first `n`, in map order, whose lists have odd length. */
  function OddPrefix(g: Graph, n: nat): seq<int>
    requires g.Valid() && n <= |g.keys|
  {
    if n == 0 then []
    else
      var key := g.keys[n - 1];
      KeysInEntries(g, key);
      OddPrefix(g, n - 1) + (if |g.entries[key]| % 2 != 0 then [key] else [])
  }

  /** The worklist `oddDegreeNodes` as the `for ... of` loop leaves it. */
  function OddNodes(g: Graph): (r: seq<int>)
    requires g.Valid()
    ensures InGraph(g, r)
  {
    OddNodesInGraph(g, |g.keys|);
    OddPrefix(g, |g.keys|)
  }

  /** `list.filter(v => work.indexOf(v) !== -1)[0]`, or None where the source reads `undefined`. */
  function FirstIn(list: seq<int>, work: seq<int>): (r: Option<int>)
    ensures r.Some? ==> r.value in list && r.value in work
    ensures r.None? ==> forall i :: 0 <= i < |list| ==> list[i] !in work
  {
    if |list| == 0 then None
    else if list[0] in work then Some(list[0])
    else FirstIn(list[1..], work)
  }

  /** `get(key)!.push(v)`. */
  function Push(g: Graph, key: int, v: int): (r: Graph)
    requires g.Valid() && key in g.entries
    ensures r.Valid() && r.keys == g.keys
  {
    g.Set(key, g.entries[key] + [v])
  }

  ghost predicate InGraph(g: Graph, work: seq<int>)
  {
    forall i :: 0 <= i < |work| ==> work[i] in g.entries
  }

  /**
   * The repair loop from worklist `work`: pop the last vertex, pair it with its first neighbour
   * still in the worklist, and push one entry onto each of the two lists. None when a popped
   * vertex has no such neighbour: the source then reads `undefined` and throws at line 91.
   */
  function Repair(g: Graph, work: seq<int>): (r: Option<Graph>)
    requires g.Valid() && InGraph(g, work)
    ensures r.Some? ==> r.value.Valid() && r.value.keys == g.keys
    decreases |work|
  {
    if |work| == 0 then Some(g)
    else
      var node1 := work[|work| - 1];
      var rest := work[..|work| - 1];
      match FirstIn(g.entries[node1], rest)
      case None => None
      case Some(node2) =>
        var rest' := RemoveAt(rest, IndexOf(rest, node2));
        var g' := Push(Push(g, node1, node2), node2, node1);
        Repair(g', rest')
  }

  /** One pass of the repair loop, as the method performs it. */
  lemma RepairUnfold(g: Graph, work: seq<int>)
    requires g.Valid() && InGraph(g, work) && |work| > 0
    ensures var node1 := work[|work| - 1];
      var rest := work[..|work| - 1];
      node1 in g.entries &&
      match FirstIn(g.entries[node1], rest)
      case None => Repair(g, work) == None
      case Some(node2) =>
        var rest' := RemoveAt(rest, IndexOf(rest, node2));
        var g' := Push(Push(g, node1, node2), node2, node1);
        node2 in g.entries && InGraph(g', rest') && Repair(g, work) == Repair(g', rest')
  {
  }

  // ---------------------------------------------------------------- findEulerianCircuit

  /** Entries still unconsumed, summed over the keys `ks`. */
  function Total(ks: seq<int>, m: map<int, seq<int>>): nat
  {
    if |ks| == 0 then 0 else (if ks[0] in m then |m[ks[0]]| else 0) + Total(ks[1..], m)
  }

  lemma {:induction false} TotalMonotone(ks: seq<int>, m: map<int, seq<int>>, m': map<int, seq<int>>)
    requires m'.Keys == m.Keys
    requires forall k :: k in m ==> |m'[k]| <= |m[k]|
    ensures Total(ks, m') <= Total(ks, m)
    ensures forall k :: k in ks && k in m && |m'[k]| < |m[k]| ==> Total(ks, m') < Total(ks, m)
  {
    if |ks| > 0 { TotalMonotone(ks[1..], m, m'); }
  }

  /** One pass of the `while` loop's push branch: pop `next` from the top's list and drop one back-entry. */
  function Consume(rem: map<int, seq<int>>, cur: int): (r: map<int, seq<int>>)
    requires cur in rem && |rem[cur]| > 0
    ensures r.Keys == rem.Keys
    ensures forall k :: k in rem ==> |r[k]| <= |rem[k]|
    ensures |r[cur]| < |rem[cur]|
  {
    var list := rem[cur];
    var next := list[|list| - 1];
    var rem1 := rem[cur := list[..|list| - 1]];
    assert rem1.Keys == rem.Keys && |rem1[cur]| < |rem[cur]|;
    assert forall k :: k in rem ==> |rem1[k]| <= |rem[k]|;
    if next in rem1 then
      var index := IndexOf(rem1[next], cur);
      if index > -1 then
        var r2 := rem1[next := RemoveAt(rem1[next], index)];
        assert forall k :: k in rem ==> |r2[k]| <= |rem1[k]|;
        r2
      else rem1
    else rem1
  }

  lemma ConsumeShrinks(ks: seq<int>, rem: map<int, seq<int>>, cur: int)
    requires cur in rem && |rem[cur]| > 0 && cur in ks
    ensures Total(ks, Consume(rem, cur)) < Total(ks, rem)
  {
    TotalMonotone(ks, rem, Consume(rem, cur));
  }

  /**
   * The traversal from a given state: while the stack is not empty, push a neighbour of the top
   * (consuming the entry both ways) or, if the top has none left, move it to the circuit.
   */
  function Traverse(ks: seq<int>, rem: map<int, seq<int>>, stack: seq<int>, circuit: seq<int>): seq<int>
    requires forall k :: k in rem ==> k in ks
    decreases Total(ks, rem), |stack|
  {
    if |stack| == 0 then circuit
    else
      var cur := stack[|stack| - 1];
      if cur in rem && |rem[cur]| > 0 then
        var rem' := Consume(rem, cur);
        ConsumeShrinks(ks, rem, cur);
        Traverse(ks, rem', stack + [rem[cur][|rem[cur]| - 1]], circuit)
      else
        Traverse(ks, rem, stack[..|stack| - 1], circuit + [cur])
  }

  /** The circuit of a repaired graph: the traversal from its first key on a copy of its lists. */
  function CircuitOf(g: Graph): seq<int>
    requires g.Valid() && |g.keys| > 0
  {
    assert forall k :: k in g.entries ==> k in g.keys by {
      forall k | k in g.entries ensures k in g.keys { KeysInEntries(g, k); }
    }
    Traverse(g.keys, g.entries, [g.keys[0]], [])
  }

  lemma {:induction false} MergeHasKeys(edges: seq<UnitLine>)
    requires |edges| > 0
    ensures |Merge(edges).keys| > 0
  {
    var g := Merge(edges[..|edges| - 1]);
    var c := edges[|edges| - 1].adjacencySet;
    assert |c.keys| > 0;
  }

  /** The next entry of the edge's map merged into the first `k`. */
  lemma MergeKeysStep(g: Graph, c: Graph, k: nat)
    requires g.Valid() && c.Valid() && k < |c.keys|
    ensures c.keys[k] in c.entries
    ensures MergeKeys(g, c, k + 1) == MergeEntry(MergeKeys(g, c, k), c.keys[k], c.entries[c.keys[k]])
  {
    KeysInEntries(c, c.keys[k]);
  }

  /** The whole construction: the repaired graph and its circuit, or the error the source throws. */
  function Build(edges: seq<UnitLine>): Result<(Graph, seq<int>), Error>
  {
    if |edges| == 0 then Err(EmptyGraph)
    else
      var g := Merge(edges);
      match Repair(g, OddNodes(g))
      case None => Err(UnresolvableOddVertex)
      case Some(r) => MergeHasKeys(edges); Ok((r, CircuitOf(r)))
  }

  lemma {:induction false} OddNodesInGraph(g: Graph, n: nat)
    requires g.Valid() && n <= |g.keys|
    ensures InGraph(g, OddPrefix(g, n))
  {
    if n > 0 {
      OddNodesInGraph(g, n - 1);
      KeysInEntries(g, g.keys[n - 1]);
    }
  }

  class EulerianCircuit {
    const edges: seq<UnitLine>
    /** `_adjacencySet`. */
    var adjacencySet: Graph
    /** `_circuit`, read through the `circuit` getter. */
    var circuit: seq<int>

    constructor (edges: seq<UnitLine>)
      ensures this.edges == edges && adjacencySet == Empty() && circuit == []
    {
      this.edges := edges;
      adjacencySet := Empty();
      circuit := [];
    }

    /**
     * The source's constructor: no edges is an `EmptyGraph` error; otherwise merge, repair and
     * traverse, failing if the repair finds no odd neighbour.
     */
    static method Create(edges: seq<UnitLine>) returns (r: Result<EulerianCircuit, Error>)
      ensures r.Err? <==> Build(edges).Err?
      ensures r.Err? ==> r.error == Build(edges).error
      ensures r.Ok? ==> fresh(r.value) && r.value.edges == edges
      ensures r.Ok? ==> (r.value.adjacencySet, r.value.circuit) == Build(edges).value
    {
      if |edges| == 0 {
        return Err(EmptyGraph);
      }
      var c := new EulerianCircuit(edges);
      c.CreateAdjacency();
      var ok := c.AddNecessaryEdges();
      if !ok {
        return Err(UnresolvableOddVertex);
      }
      MergeHasKeys(edges);
      c.FindEulerianCircuit();
      return Ok(c);
    }

    /** `createAdjacency`. */
    method CreateAdjacency()
      modifies this`adjacencySet
      ensures adjacencySet == Merge(edges)
    {
      var merged: Graph := Empty();
      for i := 0 to |edges|
        invariant merged == Merge(edges[..i])
      {
        var edgeAdjacencySet := edges[i].adjacencySet;
        ghost var start := merged;
        for k := 0 to |edgeAdjacencySet.keys|
          invariant merged.Valid()
          invariant merged == MergeKeys(start, edgeAdjacencySet, k)
        {
          var key := edgeAdjacencySet.keys[k];
          MergeKeysStep(start, edgeAdjacencySet, k);
          var value := edgeAdjacencySet.entries[key];
          ghost var before := merged;
          if key in merged.entries {
            merged := merged.Set(key, Dedup(merged.entries[key] + value));
          } else {
            merged := merged.Set(key, value);
          }
          assert merged == MergeEntry(before, key, value);
        }
        assert edges[..i + 1][..i] == edges[..i];
        assert merged == MergeEdge(start, edges[i]);
      }
      assert edges[..|edges|] == edges;
      adjacencySet := merged;
    }

    /** `addNecessaryEdges`: false where the source would throw on an `undefined` partner. */
    method AddNecessaryEdges() returns (ok: bool)
      requires adjacencySet.Valid()
      modifies this`adjacencySet
      ensures ok <==> Repair(old(adjacencySet), OddNodes(old(adjacencySet))).Some?
      ensures ok ==> adjacencySet == Repair(old(adjacencySet), OddNodes(old(adjacencySet))).value
    {
      var g := adjacencySet;
      var oddDegreeNodes: seq<int> := [];
      for i := 0 to |g.keys|
        invariant oddDegreeNodes == OddPrefix(g, i)
      {
        var node := g.keys[i];
        KeysInEntries(g, node);
        if |g.entries[node]| % 2 != 0 {
          oddDegreeNodes := oddDegreeNodes + [node];
        }
      }
      assert oddDegreeNodes == OddNodes(g);
      ghost var target := Repair(g, oddDegreeNodes);
      while |oddDegreeNodes| > 0
        invariant g.Valid() && InGraph(g, oddDegreeNodes)
        invariant Repair(g, oddDegreeNodes) == target
        decreases |oddDegreeNodes|
      {
        RepairUnfold(g, oddDegreeNodes);
        var node1 := oddDegreeNodes[|oddDegreeNodes| - 1];
        oddDegreeNodes := oddDegreeNodes[..|oddDegreeNodes| - 1];
        var partner := FirstIn(g.entries[node1], oddDegreeNodes);
        if partner.None? {
          return false;
        }
        var node2 := partner.value;
        oddDegreeNodes := RemoveAt(oddDegreeNodes, IndexOf(oddDegreeNodes, node2));
        g := Push(g, node1, node2);
        g := Push(g, node2, node1);
      }
      adjacencySet := g;
      return true;
    }

    /** `findEulerianCircuit`, on a value copy of the repaired lists. */
    method FindEulerianCircuit()
      requires adjacencySet.Valid() && |adjacencySet.keys| > 0
      modifies this`circuit
      ensures circuit == CircuitOf(adjacencySet)
    {
      var g := adjacencySet;
      var localAdjacencySet := g.entries;
      var ks := g.keys;
      assert forall k :: k in localAdjacencySet ==> k in ks by {
        forall k | k in localAdjacencySet ensures k in ks { KeysInEntries(g, k); }
      }
      var path: seq<int> := [];
      var stack: seq<int> := [ks[0]];
      while |stack| > 0
        invariant localAdjacencySet.Keys == g.entries.Keys
        invariant Traverse(ks, localAdjacencySet, stack, path) == CircuitOf(g)
        decreases Total(ks, localAdjacencySet), |stack|
      {
        var currentNode := stack[|stack| - 1];
        if currentNode in localAdjacencySet && |localAdjacencySet[currentNode]| > 0 {
          ghost var before := localAdjacencySet;
          var list := localAdjacencySet[currentNode];
          var nextNode := list[|list| - 1];
          localAdjacencySet := localAdjacencySet[currentNode := list[..|list| - 1]];
          stack := stack + [nextNode];
          if nextNode in localAdjacencySet {
            var nextNodeAdj := localAdjacencySet[nextNode];
            var index := IndexOf(nextNodeAdj, currentNode);
            if index > -1 {
              localAdjacencySet := localAdjacencySet[nextNode := RemoveAt(nextNodeAdj, index)];
            }
          }
          ConsumeShrinks(ks, before, currentNode);
        } else {
          path := path + [currentNode];
          stack := stack[..|stack| - 1];
        }
      }
      circuit := path;
    }
  }
}
