/**
 * What `findEulerianCircuit` produces. The circuit always ends at the first key. On symmetric,
 * closed, loop-free lists of even length it is a closed walk from and to the first key; when
 * every vertex is reachable from the first key it also passes through every vertex and takes
 * the step between two vertices exactly as often as they are listed under each other, so it
 * has one element more than half the number of list entries.
 */
module TraversalProperties {
  import opened Sequences
  import opened OrderedMaps
  import opened EulerianCircuits
  import opened GraphProperties

  // ---------------------------------------------------------------- the walk a circuit is

  /** Consecutive elements of `p` are listed under each other, starting from a vertex of `m`. */
  ghost predicate Path(m: Lists, p: seq<int>)
  {
    |p| > 0 &&
    (forall i :: 0 <= i < |p| ==> p[i] in m) &&
    (forall i :: 0 <= i < |p| - 1 ==> p[i] in m && p[i + 1] in m[p[i]])
  }

  /** A walk that starts and ends at `s`. */
  ghost predicate ClosedWalk(m: Lists, s: int, p: seq<int>)
  {
    Path(m, p) && p[0] == s && p[|p| - 1] == s
  }

  /** Every vertex of `m` is the end of a path from `s`. */
  ghost predicate Connected(m: Lists, s: int)
  {
    forall v :: v in m ==> exists p :: Path(m, p) && p[0] == s && p[|p| - 1] == v
  }

  // ---------------------------------------------------------------- consuming one edge

  /** The lists the traversal works on are a symmetric sub-multiset of symmetric, closed, loop-free lists. */
  ghost predicate Base(g: Lists, ks: seq<int>, rem: Lists)
  {
    Symmetric(g) && Closed(g) && LoopFree(g) && Within(rem, g) && Symmetric(rem) &&
    forall k :: k in rem ==> k in ks
  }

  /**
   * Consuming from `t` removes its last entry `n` from its list and one `t` from the list of
   * `n`, a different vertex; nothing else changes.
   */
  lemma ConsumeEffect(rem: Lists, t: int)
    requires t in rem && |rem[t]| > 0 && Symmetric(rem) && Closed(rem) && LoopFree(rem)
    ensures var n := rem[t][|rem[t]| - 1];
      var r := Consume(rem, t);
      n in rem && n != t && r.Keys == rem.Keys &&
      multiset(r[t]) == multiset(rem[t]) - multiset{n} &&
      multiset(r[n]) == multiset(rem[n]) - multiset{t} &&
      |r[t]| == |rem[t]| - 1 && |r[n]| == |rem[n]| - 1 &&
      forall x :: x in rem && x != t && x != n ==> r[x] == rem[x]
  {
    var list := rem[t];
    var n := list[|list| - 1];
    assert list == list[..|list| - 1] + [n];
    assert n in list;
    var rem1 := rem[t := list[..|list| - 1]];
    assert multiset(rem[t])[n] == multiset(rem[n])[t];
    assert t in rem1[n];
  }

  /** Removing one copy of the edge t-n from both of its lists keeps a map symmetric. */
  lemma RemoveEdgeSymmetric(rem: Lists, r: Lists, t: int, n: int)
    requires Symmetric(rem) && t in rem && n in rem && n != t && r.Keys == rem.Keys && n in rem[t]
    requires multiset(r[t]) == multiset(rem[t]) - multiset{n}
    requires multiset(r[n]) == multiset(rem[n]) - multiset{t}
    requires forall x :: x in rem && x != t && x != n ==> r[x] == rem[x]
    ensures Symmetric(r)
  {
    forall x, y | x in r && y in r ensures multiset(r[x])[y] == multiset(r[y])[x] {
      assert multiset(rem[x])[y] == multiset(rem[y])[x];
      if x == y {
      } else if (x == t && y == n) || (x == n && y == t) {
        assert multiset(r[x])[y] + 1 == multiset(rem[x])[y];
        assert multiset(r[y])[x] + 1 == multiset(rem[y])[x];
      } else {
        RemoveEdgeOther(rem, r, t, n, x, y);
        RemoveEdgeOther(rem, r, t, n, y, x);
      }
    }
  }

  /** Away from the pair t-n, a count is unchanged by removing one copy of the edge t-n. */
  lemma RemoveEdgeOther(rem: Lists, r: Lists, t: int, n: int, x: int, y: int)
    requires x in rem && r.Keys == rem.Keys && t in rem && n in rem
    requires multiset(r[t]) == multiset(rem[t]) - multiset{n}
    requires multiset(r[n]) == multiset(rem[n]) - multiset{t}
    requires forall x :: x in rem && x != t && x != n ==> r[x] == rem[x]
    requires !((x == t && y == n) || (x == n && y == t))
    ensures multiset(r[x])[y] == multiset(rem[x])[y]
  {
    if x == t {
      assert y != n;
    } else if x == n {
      assert y != t;
    }
  }

  /** Removing entries keeps a map within the lists it was within. */
  lemma RemoveEdgeWithin(rem: Lists, r: Lists, g: Lists, t: int, n: int)
    requires Within(rem, g) && t in rem && n in rem && r.Keys == rem.Keys
    requires multiset(r[t]) == multiset(rem[t]) - multiset{n}
    requires multiset(r[n]) == multiset(rem[n]) - multiset{t}
    requires forall x :: x in rem && x != t && x != n ==> r[x] == rem[x]
    ensures Within(r, g)
  {
    forall x, y | x in r ensures multiset(r[x])[y] <= multiset(g[x])[y] {
      assert multiset(rem[x])[y] <= multiset(g[x])[y];
      if x == t || x == n {
        assert multiset(r[x])[y] <= multiset(rem[x])[y];
      } else {
        assert r[x] == rem[x];
      }
    }
  }

  lemma ConsumeBase(g: Lists, ks: seq<int>, rem: Lists, t: int)
    requires Base(g, ks, rem) && t in rem && |rem[t]| > 0
    ensures Base(g, ks, Consume(rem, t))
  {
    WithinInherits(rem, g);
    ConsumeEffect(rem, t);
    var n := rem[t][|rem[t]| - 1];
    var r := Consume(rem, t);
    assert n in rem[t];
    RemoveEdgeSymmetric(rem, r, t, n);
    RemoveEdgeWithin(rem, r, g, t, n);
  }

  // ---------------------------------------------------------------- counting entries

  lemma {:induction false} TotalIgnores(ks: seq<int>, m: Lists, k: int, l: seq<int>)
    requires k !in ks
    ensures Total(ks, m[k := l]) == Total(ks, m)
  {
    if |ks| > 0 { TotalIgnores(ks[1..], m, k, l); }
  }

  /** Replacing one list changes the total by the difference in length. */
  lemma {:induction false} TotalUpdate(ks: seq<int>, m: Lists, k: int, l: seq<int>)
    requires NoDup(ks) && k in ks && k in m
    ensures Total(ks, m[k := l]) == Total(ks, m) - |m[k]| + |l|
  {
    assert NoDup(ks[1..]) by {
      forall i, j | 0 <= i < j < |ks[1..]| ensures ks[1..][i] != ks[1..][j] {
        assert ks[1..][i] == ks[i + 1] && ks[1..][j] == ks[j + 1];
      }
    }
    if ks[0] == k {
      assert k !in ks[1..] by {
        forall i | 0 <= i < |ks[1..]| ensures ks[1..][i] != k { assert ks[1..][i] == ks[i + 1]; }
      }
      TotalIgnores(ks[1..], m, k, l);
    } else {
      TotalUpdate(ks[1..], m, k, l);
    }
  }

  lemma {:induction false} TotalZero(ks: seq<int>, m: Lists)
    requires forall k :: k in m ==> m[k] == []
    ensures Total(ks, m) == 0
  {
    if |ks| > 0 { TotalZero(ks[1..], m); }
  }

  /** Consuming one edge removes exactly two entries. */
  lemma ConsumeTotal(ks: seq<int>, rem: Lists, t: int)
    requires NoDup(ks) && (forall k :: k in rem ==> k in ks)
    requires t in rem && |rem[t]| > 0 && Symmetric(rem) && Closed(rem) && LoopFree(rem)
    ensures Total(ks, Consume(rem, t)) == Total(ks, rem) - 2
  {
    ConsumeEffect(rem, t);
    var n := rem[t][|rem[t]| - 1];
    var r := Consume(rem, t);
    var r1 := rem[t := r[t]];
    TotalUpdate(ks, rem, t, r[t]);
    TotalUpdate(ks, r1, n, r[n]);
    assert r == r1[n := r[n]];
  }

  // ---------------------------------------------------------------- the walk invariant

  /** The stack is a walk through `g`. */
  ghost predicate StackWalk(g: Lists, stack: seq<int>)
  {
    (forall i :: 0 <= i < |stack| ==> stack[i] in g) &&
    (forall i :: 0 <= i < |stack| - 1 ==> stack[i] in g && stack[i + 1] in g[stack[i]])
  }

  /** The circuit so far is a walk through `g` read backwards. */
  ghost predicate BackWalk(g: Lists, circ: seq<int>)
  {
    (forall i :: 0 <= i < |circ| ==> circ[i] in g) &&
    (forall i :: 1 <= i < |circ| ==> circ[i] in g && circ[i - 1] in g[circ[i]])
  }

  /**
   * The traversal state from start `s`. `j` marks the junction: the circuit so far continues the
   * stack at `stack[j - 1]`, and the only vertices with an odd number of remaining entries are
   * that junction and the top of the stack (none when they coincide).
   */
  ghost predicate WalkState(g: Lists, s: int, rem: Lists, stack: seq<int>, circ: seq<int>, j: int)
  {
    StackWalk(g, stack) && BackWalk(g, circ) && rem.Keys == g.Keys &&
    (|stack| > 0 ==>
      stack[0] == s && 1 <= j <= |stack| &&
      (|circ| > 0 ==> stack[j - 1] in g && circ[|circ| - 1] in g[stack[j - 1]]) &&
      forall x :: x in rem ==> (|rem[x]| % 2 == 1 <==> ((x == stack[j - 1]) != (x == stack[|stack| - 1])))) &&
    (|circ| == 0 ==> |stack| > 0 && j == 1) &&
    (|circ| > 0 ==> circ[0] == s) &&
    (|stack| == 0 ==> |circ| > 0 && circ[|circ| - 1] == s)
  }

  /** Moving the top from `t` to `n` by consuming one entry each way moves the odd end with it. */
  lemma PushParity(rem: Lists, r: Lists, t: int, n: int, junction: int)
    requires t in rem && n in rem && t != n && r.Keys == rem.Keys
    requires |r[t]| == |rem[t]| - 1 && |r[n]| == |rem[n]| - 1
    requires forall x :: x in rem && x != t && x != n ==> r[x] == rem[x]
    requires forall x :: x in rem ==> (|rem[x]| % 2 == 1 <==> ((x == junction) != (x == t)))
    ensures forall x :: x in r ==> (|r[x]| % 2 == 1 <==> ((x == junction) != (x == n)))
  {
    forall x | x in r ensures |r[x]| % 2 == 1 <==> ((x == junction) != (x == n)) {
      assert x in rem;
    }
  }

  lemma PushWalk(g: Lists, ks: seq<int>, s: int, rem: Lists, stack: seq<int>, circ: seq<int>, j: int)
    requires Base(g, ks, rem) && WalkState(g, s, rem, stack, circ, j) && |stack| > 0
    requires stack[|stack| - 1] in rem && |rem[stack[|stack| - 1]]| > 0
    ensures var t := stack[|stack| - 1];
      WalkState(g, s, Consume(rem, t), stack + [rem[t][|rem[t]| - 1]], circ, j)
  {
    var t := stack[|stack| - 1];
    WithinInherits(rem, g);
    ConsumeEffect(rem, t);
    var n := rem[t][|rem[t]| - 1];
    var r := Consume(rem, t);
    var stack' := stack + [n];
    assert multiset(rem[t])[n] > 0;
    assert multiset(g[t])[n] > 0;
    assert StackWalk(g, stack') by {
      forall i | 0 <= i < |stack'| - 1 ensures stack'[i] in g && stack'[i + 1] in g[stack'[i]] {
        if i < |stack| - 1 { assert stack'[i] == stack[i] && stack'[i + 1] == stack[i + 1]; }
      }
    }
    assert stack'[j - 1] == stack[j - 1];
    PushParity(rem, r, t, n, stack[j - 1]);
  }

  lemma PopWalk(g: Lists, ks: seq<int>, s: int, rem: Lists, stack: seq<int>, circ: seq<int>, j: int)
    requires Base(g, ks, rem) && WalkState(g, s, rem, stack, circ, j) && |stack| > 0
    requires !(stack[|stack| - 1] in rem && |rem[stack[|stack| - 1]]| > 0)
    ensures WalkState(g, s, rem, stack[..|stack| - 1], circ + [stack[|stack| - 1]], |stack| - 1)
  {
    var t := stack[|stack| - 1];
    assert t in rem;
    assert t == stack[j - 1];
    var stack', circ' := stack[..|stack| - 1], circ + [t];
    assert BackWalk(g, circ') by {
      forall i | 1 <= i < |circ'| ensures circ'[i] in g && circ'[i - 1] in g[circ'[i]] {
        if i < |circ| { assert circ'[i] == circ[i] && circ'[i - 1] == circ[i - 1]; }
      }
    }
    if |stack'| > 0 {
      assert stack'[|stack'| - 1] == stack[|stack| - 2];
      assert StackWalk(g, stack') by {
        forall i | 0 <= i < |stack'| - 1 ensures stack'[i] in g && stack'[i + 1] in g[stack'[i]] {
          assert stack'[i] == stack[i] && stack'[i + 1] == stack[i + 1];
        }
      }
    }
  }

  lemma {:induction false} TraverseWalk(g: Lists, ks: seq<int>, s: int, rem: Lists, stack: seq<int>, circ: seq<int>, j: int)
    requires Base(g, ks, rem) && WalkState(g, s, rem, stack, circ, j)
    ensures BackWalk(g, Traverse(ks, rem, stack, circ))
    ensures var c := Traverse(ks, rem, stack, circ); |c| > 0 && c[0] == s
    decreases Total(ks, rem), |stack|
  {
    if |stack| > 0 {
      var t := stack[|stack| - 1];
      if t in rem && |rem[t]| > 0 {
        ConsumeShrinks(ks, rem, t);
        ConsumeBase(g, ks, rem, t);
        PushWalk(g, ks, s, rem, stack, circ, j);
        assert Traverse(ks, rem, stack, circ) == Traverse(ks, Consume(rem, t), stack + [rem[t][|rem[t]| - 1]], circ);
        TraverseWalk(g, ks, s, Consume(rem, t), stack + [rem[t][|rem[t]| - 1]], circ, j);
      } else {
        PopWalk(g, ks, s, rem, stack, circ, j);
        assert Traverse(ks, rem, stack, circ) == Traverse(ks, rem, stack[..|stack| - 1], circ + [t]);
        TraverseWalk(g, ks, s, rem, stack[..|stack| - 1], circ + [t], |stack| - 1);
      }
    } else {
      assert Traverse(ks, rem, stack, circ) == circ;
    }
  }

  // ---------------------------------------------------------------- the coverage invariant

  /**
   * The traversal state counted: every vertex is on the stack, in the circuit, or untouched;
   * circuit vertices have nothing left; and stack plus circuit have grown by one element per
   * consumed pair of entries.
   */
  ghost predicate CoverState(g: Lists, ks: seq<int>, s: int, rem: Lists, stack: seq<int>, circ: seq<int>)
  {
    rem.Keys == g.Keys && s in g && NoDup(ks) && (forall i :: 0 <= i < |stack| ==> stack[i] in g) &&
    (|stack| > 0 ==> stack[0] == s) && (|stack| == 0 ==> s in circ) &&
    (forall x :: x in g ==> x in stack || x in circ || rem[x] == g[x]) &&
    (forall x :: x in circ ==> x in rem && rem[x] == []) &&
    2 * (|circ| + |stack|) == Total(ks, g) - Total(ks, rem) + 2
  }

  lemma PushCover(g: Lists, ks: seq<int>, s: int, rem: Lists, stack: seq<int>, circ: seq<int>)
    requires Base(g, ks, rem) && CoverState(g, ks, s, rem, stack, circ) && |stack| > 0
    requires stack[|stack| - 1] in rem && |rem[stack[|stack| - 1]]| > 0
    ensures var t := stack[|stack| - 1];
      CoverState(g, ks, s, Consume(rem, t), stack + [rem[t][|rem[t]| - 1]], circ)
  {
    var t := stack[|stack| - 1];
    WithinInherits(rem, g);
    ConsumeEffect(rem, t);
    ConsumeTotal(ks, rem, t);
    var n := rem[t][|rem[t]| - 1];
    var r := Consume(rem, t);
    assert t !in circ;
    assert multiset(rem[n])[t] > 0;
    assert n !in circ;
    var stack' := stack + [n];
    forall x | x in g ensures x in stack' || x in circ || r[x] == g[x] {
      if x !in stack' { assert x != t && x != n; }
    }
  }

  lemma PopCover(g: Lists, ks: seq<int>, s: int, rem: Lists, stack: seq<int>, circ: seq<int>)
    requires Base(g, ks, rem) && CoverState(g, ks, s, rem, stack, circ) && |stack| > 0
    requires !(stack[|stack| - 1] in rem && |rem[stack[|stack| - 1]]| > 0)
    ensures CoverState(g, ks, s, rem, stack[..|stack| - 1], circ + [stack[|stack| - 1]])
  {
    var t := stack[|stack| - 1];
    var stack', circ' := stack[..|stack| - 1], circ + [t];
    assert stack == stack' + [t];
    assert forall i :: 0 <= i < |stack'| ==> stack'[i] == stack[i];
    if |stack'| == 0 { assert t == s; }
  }

  /** With nothing left on the stack, a neighbour of a circuit vertex is in the circuit. */
  lemma FinishedClosed(g: Lists, ks: seq<int>, s: int, rem: Lists, circ: seq<int>, x: int, y: int)
    requires Base(g, ks, rem) && CoverState(g, ks, s, rem, [], circ)
    requires x in circ && y in g[x]
    ensures y in circ
  {
    SymmetricListing(g, x, y);
    assert multiset(rem[x])[y] == 0;
    assert multiset(rem[y])[x] == 0;
    assert multiset(g[y])[x] > 0;
    assert rem[y] != g[y];
  }

  lemma {:induction false} PathInCircuit(g: Lists, ks: seq<int>, s: int, rem: Lists, circ: seq<int>, p: seq<int>, i: nat)
    requires Base(g, ks, rem) && CoverState(g, ks, s, rem, [], circ)
    requires Path(g, p) && p[0] in circ && i < |p|
    ensures p[i] in circ
  {
    if i > 0 {
      PathInCircuit(g, ks, s, rem, circ, p, i - 1);
      assert p[i - 1] in g && p[i] in g[p[i - 1]];
      FinishedClosed(g, ks, s, rem, circ, p[i - 1], p[i]);
    }
  }

  lemma {:induction false} TraverseCovers(g: Lists, ks: seq<int>, s: int, rem: Lists, stack: seq<int>, circ: seq<int>)
    requires Base(g, ks, rem) && CoverState(g, ks, s, rem, stack, circ) && Connected(g, s)
    ensures var c := Traverse(ks, rem, stack, circ);
      2 * |c| == Total(ks, g) + 2 && forall x :: x in g ==> x in c
    decreases Total(ks, rem), |stack|
  {
    if |stack| > 0 {
      var t := stack[|stack| - 1];
      if t in rem && |rem[t]| > 0 {
        ConsumeShrinks(ks, rem, t);
        ConsumeBase(g, ks, rem, t);
        PushCover(g, ks, s, rem, stack, circ);
        TraverseCovers(g, ks, s, Consume(rem, t), stack + [rem[t][|rem[t]| - 1]], circ);
      } else {
        PopCover(g, ks, s, rem, stack, circ);
        TraverseCovers(g, ks, s, rem, stack[..|stack| - 1], circ + [t]);
      }
    } else {
      forall v | v in g ensures v in circ {
        var p :| Path(g, p) && p[0] == s && p[|p| - 1] == v;
        PathInCircuit(g, ks, s, rem, circ, p, |p| - 1);
      }
      TotalZero(ks, rem);
    }
  }

  // ---------------------------------------------------------------- the steps along each edge

  /** The step from `a` to `b` is between `x` and `y`, in one direction or the other. */
  predicate Between(a: int, b: int, x: int, y: int)
  {
    (a == x && b == y) || (a == y && b == x)
  }

  /** The number of steps of the walk `p` that join `x` and `y`. */
  function Steps(p: seq<int>, x: int, y: int): nat
    decreases |p|
  {
    if |p| < 2 then 0
    else Steps(p[..|p| - 1], x, y) + (if Between(p[|p| - 2], p[|p| - 1], x, y) then 1 else 0)
  }

  /** Extending a walk by one vertex adds the new step, if it joins `x` and `y`. */
  lemma StepsAppend(p: seq<int>, v: int, x: int, y: int)
    ensures Steps(p + [v], x, y) == Steps(p, x, y) + (if |p| > 0 && Between(p[|p| - 1], v, x, y) then 1 else 0)
  {
    assert (p + [v])[..|p|] == p;
  }

  /** The walk `p` has a step between `x` and `y` exactly when it counts one. */
  lemma {:induction false} StepsFound(p: seq<int>, x: int, y: int)
    ensures Steps(p, x, y) > 0 <==> exists i :: 0 <= i < |p| - 1 && Between(p[i], p[i + 1], x, y)
    decreases |p|
  {
    if |p| >= 2 {
      var q := p[..|p| - 1];
      StepsFound(q, x, y);
      assert forall i :: 0 <= i < |q| ==> q[i] == p[i];
      if Steps(p, x, y) > 0 && !Between(p[|p| - 2], p[|p| - 1], x, y) {
        var i :| 0 <= i < |q| - 1 && Between(q[i], q[i + 1], x, y);
        assert Between(p[i], p[i + 1], x, y);
      }
      if exists i :: 0 <= i < |p| - 1 && Between(p[i], p[i + 1], x, y) {
        var i :| 0 <= i < |p| - 1 && Between(p[i], p[i + 1], x, y);
        if i < |p| - 2 { assert Between(q[i], q[i + 1], x, y); }
      }
    }
  }

  /** The walk `c` steps between distinct `x` and `y` exactly as often as `y` is listed under `x`. */
  ghost predicate UsesEachEntryOnce(m: Lists, c: seq<int>)
  {
    forall x, y :: x in m && x != y ==> Steps(c, x, y) == multiset(m[x])[y]
  }

  /** 1 when the circuit so far ends with a step to the junction that joins `x` and `y`, else 0. */
  function Junction(stack: seq<int>, circ: seq<int>, j: int, x: int, y: int): nat
  {
    if |circ| > 0 && 1 <= j <= |stack| && Between(circ[|circ| - 1], stack[j - 1], x, y) then 1 else 0
  }

  /**
   * Every consumed entry is accounted for: `y` has been taken from the list of `x` as many times
   * as the stack, the circuit and the step from the circuit to the junction join them.
   */
  ghost predicate CountState(g: Lists, rem: Lists, stack: seq<int>, circ: seq<int>, j: int)
  {
    rem.Keys == g.Keys &&
    forall x, y :: x in g && x != y ==>
      multiset(g[x])[y] == multiset(rem[x])[y] + Steps(stack, x, y) + Steps(circ, x, y) + Junction(stack, circ, j, x, y)
  }

  /** Consuming from `t` takes one entry between `t` and its last neighbour `n`, and no other. */
  lemma ConsumeCount(rem: Lists, t: int)
    requires t in rem && |rem[t]| > 0 && Symmetric(rem) && Closed(rem) && LoopFree(rem)
    ensures var n := rem[t][|rem[t]| - 1];
      var r := Consume(rem, t);
      r.Keys == rem.Keys &&
      forall x, y :: x in rem && x != y ==>
        multiset(r[x])[y] + (if Between(t, n, x, y) then 1 else 0) == multiset(rem[x])[y]
  {
    ConsumeEffect(rem, t);
    var n := rem[t][|rem[t]| - 1];
    var r := Consume(rem, t);
    forall x, y | x in rem && x != y
      ensures multiset(r[x])[y] + (if Between(t, n, x, y) then 1 else 0) == multiset(rem[x])[y]
    {
      if x == t {
        assert multiset(r[x])[y] == multiset(rem[x])[y] - (if y == n then 1 else 0);
      } else if x == n {
        assert multiset(r[x])[y] == multiset(rem[x])[y] - (if y == t then 1 else 0);
      }
    }
  }

  /** The count for one pair after a push: the consumed entry is the new top step. */
  lemma PushCountAt(x: int, y: int, gxy: nat, remxy: nat, rxy: nat, stack: seq<int>, n: int, circ: seq<int>, j: int)
    requires |stack| > 0 && 1 <= j <= |stack|
    requires gxy == remxy + Steps(stack, x, y) + Steps(circ, x, y) + Junction(stack, circ, j, x, y)
    requires rxy + (if Between(stack[|stack| - 1], n, x, y) then 1 else 0) == remxy
    ensures gxy == rxy + Steps(stack + [n], x, y) + Steps(circ, x, y) + Junction(stack + [n], circ, j, x, y)
  {
    StepsAppend(stack, n, x, y);
    assert (stack + [n])[j - 1] == stack[j - 1];
  }

  lemma PushCount(g: Lists, ks: seq<int>, s: int, rem: Lists, stack: seq<int>, circ: seq<int>, j: int)
    requires Base(g, ks, rem) && WalkState(g, s, rem, stack, circ, j) && CountState(g, rem, stack, circ, j)
    requires |stack| > 0 && stack[|stack| - 1] in rem && |rem[stack[|stack| - 1]]| > 0
    ensures var t := stack[|stack| - 1];
      CountState(g, Consume(rem, t), stack + [rem[t][|rem[t]| - 1]], circ, j)
  {
    var t := stack[|stack| - 1];
    WithinInherits(rem, g);
    ConsumeCount(rem, t);
    var n := rem[t][|rem[t]| - 1];
    var r := Consume(rem, t);
    forall x, y | x in g && x != y
      ensures multiset(g[x])[y] == multiset(r[x])[y] + Steps(stack + [n], x, y) + Steps(circ, x, y) + Junction(stack + [n], circ, j, x, y)
    {
      PushCountAt(x, y, multiset(g[x])[y], multiset(rem[x])[y], multiset(r[x])[y], stack, n, circ, j);
    }
  }

  /** The count for one pair after a pop: the top step moves from the stack to the junction. */
  lemma PopCountAt(x: int, y: int, gxy: nat, remxy: nat, stack: seq<int>, circ: seq<int>, j: int)
    requires |stack| > 0 && 1 <= j <= |stack| && stack[j - 1] == stack[|stack| - 1]
    requires gxy == remxy + Steps(stack, x, y) + Steps(circ, x, y) + Junction(stack, circ, j, x, y)
    ensures var t := stack[|stack| - 1];
      gxy == remxy + Steps(stack[..|stack| - 1], x, y) + Steps(circ + [t], x, y) +
        Junction(stack[..|stack| - 1], circ + [t], |stack| - 1, x, y)
  {
    var t := stack[|stack| - 1];
    var stack' := stack[..|stack| - 1];
    assert stack == stack' + [t];
    StepsAppend(stack', t, x, y);
    StepsAppend(circ, t, x, y);
    if |stack'| > 0 {
      assert stack'[|stack'| - 1] == stack[|stack| - 2];
    }
  }

  lemma PopCount(g: Lists, ks: seq<int>, s: int, rem: Lists, stack: seq<int>, circ: seq<int>, j: int)
    requires Base(g, ks, rem) && WalkState(g, s, rem, stack, circ, j) && CountState(g, rem, stack, circ, j)
    requires |stack| > 0 && !(stack[|stack| - 1] in rem && |rem[stack[|stack| - 1]]| > 0)
    ensures CountState(g, rem, stack[..|stack| - 1], circ + [stack[|stack| - 1]], |stack| - 1)
  {
    var t := stack[|stack| - 1];
    assert t in rem;
    assert t == stack[j - 1];
    forall x, y | x in g && x != y
      ensures multiset(g[x])[y] == multiset(rem[x])[y] + Steps(stack[..|stack| - 1], x, y) +
        Steps(circ + [t], x, y) + Junction(stack[..|stack| - 1], circ + [t], |stack| - 1, x, y)
    {
      PopCountAt(x, y, multiset(g[x])[y], multiset(rem[x])[y], stack, circ, j);
    }
  }

  /** With the stack empty and every vertex reached, nothing remains and the circuit holds every step. */
  lemma FinishedCounts(g: Lists, ks: seq<int>, s: int, rem: Lists, circ: seq<int>, j: int)
    requires Base(g, ks, rem) && CoverState(g, ks, s, rem, [], circ) && CountState(g, rem, [], circ, j)
    requires Connected(g, s)
    ensures UsesEachEntryOnce(g, circ)
  {
    forall x, y | x in g && x != y ensures Steps(circ, x, y) == multiset(g[x])[y] {
      var p :| Path(g, p) && p[0] == s && p[|p| - 1] == x;
      PathInCircuit(g, ks, s, rem, circ, p, |p| - 1);
      assert rem[x] == [];
      assert Junction([], circ, j, x, y) == 0;
    }
  }

  lemma {:induction false} TraverseCounts(g: Lists, ks: seq<int>, s: int, rem: Lists, stack: seq<int>, circ: seq<int>, j: int)
    requires Base(g, ks, rem) && WalkState(g, s, rem, stack, circ, j) && CoverState(g, ks, s, rem, stack, circ)
    requires CountState(g, rem, stack, circ, j) && Connected(g, s)
    ensures UsesEachEntryOnce(g, Traverse(ks, rem, stack, circ))
    decreases Total(ks, rem), |stack|
  {
    if |stack| > 0 {
      var t := stack[|stack| - 1];
      if t in rem && |rem[t]| > 0 {
        var n := rem[t][|rem[t]| - 1];
        ConsumeShrinks(ks, rem, t);
        ConsumeBase(g, ks, rem, t);
        PushWalk(g, ks, s, rem, stack, circ, j);
        PushCover(g, ks, s, rem, stack, circ);
        PushCount(g, ks, s, rem, stack, circ, j);
        assert Traverse(ks, rem, stack, circ) == Traverse(ks, Consume(rem, t), stack + [n], circ);
        TraverseCounts(g, ks, s, Consume(rem, t), stack + [n], circ, j);
      } else {
        PopWalk(g, ks, s, rem, stack, circ, j);
        PopCover(g, ks, s, rem, stack, circ);
        PopCount(g, ks, s, rem, stack, circ, j);
        assert Traverse(ks, rem, stack, circ) == Traverse(ks, rem, stack[..|stack| - 1], circ + [t]);
        TraverseCounts(g, ks, s, rem, stack[..|stack| - 1], circ + [t], |stack| - 1);
      }
    } else {
      assert Traverse(ks, rem, stack, circ) == circ;
      FinishedCounts(g, ks, s, rem, circ, j);
    }
  }

  // ---------------------------------------------------------------- the circuit of a graph

  /** Wherever the traversal starts, its last element is the bottom of the stack. */
  lemma {:induction false} TraverseEndsAt(ks: seq<int>, s: int, rem: Lists, stack: seq<int>, circ: seq<int>)
    requires forall k :: k in rem ==> k in ks
    requires |stack| > 0 ==> stack[0] == s
    requires |stack| == 0 ==> |circ| > 0 && circ[|circ| - 1] == s
    ensures var c := Traverse(ks, rem, stack, circ); |c| > 0 && c[|c| - 1] == s
    decreases Total(ks, rem), |stack|
  {
    if |stack| > 0 {
      var t := stack[|stack| - 1];
      if t in rem && |rem[t]| > 0 {
        ConsumeShrinks(ks, rem, t);
        TraverseEndsAt(ks, s, Consume(rem, t), stack + [rem[t][|rem[t]| - 1]], circ);
      } else {
        TraverseEndsAt(ks, s, rem, stack[..|stack| - 1], circ + [t]);
      }
    }
  }

  lemma KeysListed(g: Graph)
    requires g.Valid()
    ensures forall k :: k in g.entries ==> k in g.keys
  {
    forall k | k in g.entries ensures k in g.keys { KeysInEntries(g, k); }
  }

  /** The circuit of any map ends where it starts, at the first key. */
  lemma CircuitEndsAtStart(g: Graph)
    requires g.Valid() && |g.keys| > 0
    ensures |CircuitOf(g)| > 0 && CircuitOf(g)[|CircuitOf(g)| - 1] == g.keys[0]
  {
    KeysListed(g);
    TraverseEndsAt(g.keys, g.keys[0], g.entries, [g.keys[0]], []);
  }

  /** Reading a backward walk forwards in symmetric lists. */
  lemma ForwardWalk(m: Lists, c: seq<int>)
    requires Symmetric(m) && Closed(m) && BackWalk(m, c) && |c| > 0
    ensures Path(m, c)
  {
    forall i | 0 <= i < |c| - 1 ensures c[i] in m && c[i + 1] in m[c[i]] {
      assert c[i + 1] in m && c[i] in m[c[i + 1]];
      SymmetricListing(m, c[i + 1], c[i]);
    }
  }

  /**
   * On symmetric, closed, loop-free lists of even length, the circuit is a closed walk from the
   * first key: it starts and ends there and each next vertex is listed under the one before.
   */
  lemma CircuitIsClosedWalk(g: Graph)
    requires g.Valid() && |g.keys| > 0
    requires Symmetric(g.entries) && Closed(g.entries) && LoopFree(g.entries) && AllEven(g.entries)
    ensures ClosedWalk(g.entries, g.keys[0], CircuitOf(g))
  {
    var m, s := g.entries, g.keys[0];
    KeysListed(g);
    KeysInEntries(g, s);
    assert Base(m, g.keys, m);
    assert WalkState(m, s, m, [s], [], 1);
    TraverseWalk(m, g.keys, s, m, [s], [], 1);
    TraverseEndsAt(g.keys, s, m, [s], []);
    ForwardWalk(m, CircuitOf(g));
  }

  /**
   * When every vertex is reachable from the first key, the circuit passes through every vertex
   * and has one element more than half the number of list entries, that is, than the number of
   * undirected edges.
   */
  lemma CircuitCoversGraph(g: Graph)
    requires g.Valid() && |g.keys| > 0
    requires Symmetric(g.entries) && Closed(g.entries) && LoopFree(g.entries)
    requires Connected(g.entries, g.keys[0])
    ensures |CircuitOf(g)| == Total(g.keys, g.entries) / 2 + 1
    ensures forall x :: x in g.entries ==> x in CircuitOf(g)
  {
    var m, s := g.entries, g.keys[0];
    KeysListed(g);
    KeysInEntries(g, s);
    assert Base(m, g.keys, m);
    assert CoverState(m, g.keys, s, m, [s], []);
    TraverseCovers(m, g.keys, s, m, [s], []);
  }

  /**
   * On symmetric, closed, loop-free lists of even length in which the first key reaches every
   * vertex, the circuit is Eulerian: it takes the step between two distinct vertices exactly as
   * many times as one is listed under the other, so each pair of matching entries once.
   */
  lemma CircuitUsesEachEntryOnce(g: Graph)
    requires g.Valid() && |g.keys| > 0
    requires Symmetric(g.entries) && Closed(g.entries) && LoopFree(g.entries) && AllEven(g.entries)
    requires Connected(g.entries, g.keys[0])
    ensures UsesEachEntryOnce(g.entries, CircuitOf(g))
  {
    var m, s := g.entries, g.keys[0];
    KeysListed(g);
    KeysInEntries(g, s);
    assert Base(m, g.keys, m);
    assert WalkState(m, s, m, [s], [], 1);
    assert CoverState(m, g.keys, s, m, [s], []);
    assert CountState(m, m, [s], [], 1);
    TraverseCounts(m, g.keys, s, m, [s], [], 1);
  }
}
