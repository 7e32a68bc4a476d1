/**
 * The vertex values and edge list `GeometricShape` builds for a d-cube, as values: the main
 * corners below 2^d (the anchors), and for each anchor in order one edge per bit, flipping bit
 * 0 first. For d <= 4 there are 2^(d-1) anchors and d * 2^(d-1) edges, no two edges join the
 * same two vertices, and every two values below 2^d that differ in one bit are joined.
 */
module Hypercubes {
  import opened Bits
  import opened UnitPoints

  /** The main corners below `n`, in increasing order. */
  function Anchors(n: nat): seq<nat>
  {
    if n == 0 then [] else Anchors(n - 1) + (if IsMainCorner(n - 1) then [n - 1] else [])
  }

  ghost predicate Increasing(s: seq<nat>)
  {
    forall p, q :: 0 <= p < q < |s| ==> s[p] < s[q]
  }

  /** The anchors are increasing main corners below `n`. */
  lemma {:induction false} AnchorsSpec(n: nat)
    ensures Increasing(Anchors(n))
    ensures forall t :: 0 <= t < |Anchors(n)| ==> Anchors(n)[t] < n && IsMainCorner(Anchors(n)[t])
  {
    if n > 0 {
      AnchorsSpec(n - 1);
      var prev := Anchors(n - 1);
      assert forall t :: 0 <= t < |prev| ==> Anchors(n)[t] == prev[t];
    }
  }

  /** Zero is always the first anchor. */
  lemma {:induction false} AnchorsStartAtZero(n: nat)
    requires n > 0
    ensures |Anchors(n)| > 0 && Anchors(n)[0] == 0
  {
    if n > 1 {
      AnchorsStartAtZero(n - 1);
    } else {
      assert IsMainCorner(0);
    }
  }

  /** Where a main corner below `n` sits among the anchors: none is left out. */
  function AnchorPos(n: nat, v: nat): (t: nat)
    requires v < n && IsMainCorner(v)
    ensures t < |Anchors(n)| && Anchors(n)[t] == v
  {
    if v == n - 1 then |Anchors(n - 1)| else AnchorPos(n - 1, v)
  }

  /** Below `2^k`, adding `2^k` sets a clear bit, which flips the corner parity. */
  lemma HighBitFlips(k: nat, v: nat)
    requires k < 4 && v < Pow2(k)
    ensures IsMainCorner(Pow2(k) + v) == !IsMainCorner(v)
  {
    HighBitsClear(v, k, k);
    XorSetsBit(v, k);
    FlipChangesCorner(v, k);
  }

  /** Counting one more value on each side of the shift keeps the balance. */
  lemma ShiftStep(p: nat, m: nat)
    requires 0 < m
    requires IsMainCorner(p + (m - 1)) == !IsMainCorner(m - 1)
    requires |Anchors(p + (m - 1))| == |Anchors(p)| + (m - 1) - |Anchors(m - 1)|
    ensures |Anchors(p + m)| == |Anchors(p)| + m - |Anchors(m)|
  {
    assert p + m - 1 == p + (m - 1);
  }

  /**
   * When adding `p` flips the corner parity of every value below `m`, the values from `p` to
   * `p + m` hold as many main corners as the values below `m` hold others.
   */
  lemma {:induction false} AnchorsShift(p: nat, m: nat)
    requires forall v: nat :: v < m ==> IsMainCorner(p + v) == !IsMainCorner(v)
    ensures |Anchors(p + m)| == |Anchors(p)| + m - |Anchors(m)|
  {
    if m > 0 {
      AnchorsShift(p, m - 1);
      ShiftStep(p, m);
    }
  }

  /** For 1 <= d <= 4 exactly half of the 2^d vertices are anchors. */
  lemma AnchorsCount(d: nat)
    requires 1 <= d <= 4
    ensures |Anchors(Pow2(d))| == Pow2(d - 1)
  {
    var q := Pow2(d - 1);
    forall v: nat | v < q ensures IsMainCorner(q + v) == !IsMainCorner(v) {
      HighBitFlips(d - 1, v);
    }
    AnchorsShift(q, q);
    assert Pow2(d) == q + q;
  }

  /** The edges of one anchor, one per bit below `d`, bit 0 first. */
  function Flips(a: nat, d: nat): seq<(int, int)>
  {
    seq(d, i requires 0 <= i < d => (a, Xor(a, Pow2(i))))
  }

  /** The `flatMap` of `Flips` over the anchors. */
  function EdgePairs(anchors: seq<nat>, d: nat): seq<(int, int)>
  {
    if |anchors| == 0 then [] else EdgePairs(anchors[..|anchors| - 1], d) + Flips(anchors[|anchors| - 1], d)
  }

  /** The endpoint values of the d-cube's edges. */
  function CubeEdges(d: nat): seq<(int, int)>
  {
    EdgePairs(Anchors(Pow2(d)), d)
  }

  /** The anchor and the bit of edge `k` when every anchor has `d` edges: `k / d` and `k % d`. */
  function Split(k: nat, d: nat): (r: (nat, nat))
    requires d > 0
    ensures r.1 < d && k == r.0 * d + r.1
    decreases k
  {
    if k < d then (0, k) else var (t, i) := Split(k - d, d); (t + 1, i)
  }

  lemma {:induction false} MulNonNegative(a: nat, b: nat)
    ensures a * b >= 0
  {
    if a > 0 {
      MulNonNegative(a - 1, b);
      assert a * b == (a - 1) * b + b;
    }
  }

  /** `Split` undoes `t * d + i`. */
  lemma {:induction false} SplitUnique(t: nat, i: nat, d: nat)
    requires i < d
    ensures Split(t * d + i, d) == (t, i)
  {
    if t > 0 {
      MulNonNegative(t - 1, d);
      assert t * d + i == (t - 1) * d + i + d;
      SplitUnique(t - 1, i, d);
    }
  }

  /** Index `t * d + i` is in range for an anchor `t` and a bit `i`. */
  lemma IndexBelow(t: nat, i: nat, n: nat, d: nat)
    requires t < n && i < d
    ensures t * d + i < n * d
  {
    MulNonNegative(n - t - 1, d);
    assert n * d == t * d + d + (n - t - 1) * d;
  }

  /** Edge `k` belongs to anchor `Split(k, d).0` and flips that anchor's bit `Split(k, d).1`. */
  ghost predicate EdgeAt(anchors: seq<nat>, d: nat, k: nat)
  {
    d > 0 && k < |EdgePairs(anchors, d)| && Split(k, d).0 < |anchors| &&
    EdgePairs(anchors, d)[k] == (anchors[Split(k, d).0], Xor(anchors[Split(k, d).0], Pow2(Split(k, d).1)))
  }

  lemma EdgeInPrefix(anchors: seq<nat>, d: nat, k: nat)
    requires |anchors| > 0 && EdgeAt(anchors[..|anchors| - 1], d, k)
    ensures EdgeAt(anchors, d, k)
  {
    var prefix := anchors[..|anchors| - 1];
    assert prefix[Split(k, d).0] == anchors[Split(k, d).0];
  }

  lemma EdgeInLast(anchors: seq<nat>, d: nat, k: nat)
    requires |anchors| > 0 && |EdgePairs(anchors[..|anchors| - 1], d)| == (|anchors| - 1) * d
    requires (|anchors| - 1) * d <= k < (|anchors| - 1) * d + d
    ensures EdgeAt(anchors, d, k)
  {
    SplitUnique(|anchors| - 1, k - (|anchors| - 1) * d, d);
  }

  /** Each anchor contributes `d` edges. */
  lemma {:induction false} EdgePairsLength(anchors: seq<nat>, d: nat)
    ensures |EdgePairs(anchors, d)| == |anchors| * d
  {
    if |anchors| > 0 {
      EdgePairsLength(anchors[..|anchors| - 1], d);
      assert |EdgePairs(anchors, d)| == (|anchors| - 1) * d + d;
    }
  }

  /** Every edge is the flip of bit `Split(k, d).1` of anchor `Split(k, d).0`. */
  lemma {:induction false} EdgePairsAt(anchors: seq<nat>, d: nat)
    ensures forall k :: 0 <= k < |EdgePairs(anchors, d)| ==> EdgeAt(anchors, d, k)
  {
    if |anchors| > 0 {
      var n := |anchors|;
      EdgePairsAt(anchors[..n - 1], d);
      EdgePairsLength(anchors[..n - 1], d);
      EdgePairsLength(anchors, d);
      forall k | 0 <= k < |EdgePairs(anchors, d)| ensures EdgeAt(anchors, d, k) {
        if k < (n - 1) * d {
          EdgeInPrefix(anchors, d, k);
        } else {
          EdgeInLast(anchors, d, k);
        }
      }
    }
  }

  /** No pair of values is joined by two edges, in either order. */
  predicate SameEdge(p: (int, int), q: (int, int))
  {
    p == q || (p.0 == q.1 && p.1 == q.0)
  }

  /** The edge of anchor `t` that flips bit `i`. */
  lemma EdgeAtIndex(anchors: seq<nat>, d: nat, t: nat, i: nat)
    requires t < |anchors| && i < d
    ensures t * d + i < |EdgePairs(anchors, d)|
    ensures EdgePairs(anchors, d)[t * d + i] == (anchors[t], Xor(anchors[t], Pow2(i)))
  {
    EdgePairsLength(anchors, d);
    IndexBelow(t, i, |anchors|, d);
    SplitUnique(t, i, d);
    EdgePairsAt(anchors, d);
    assert EdgeAt(anchors, d, t * d + i);
  }

  /** The first edge joins 0 to 1. */
  lemma CubeFirstEdge(d: nat)
    requires d >= 1
    ensures |CubeEdges(d)| > 0 && CubeEdges(d)[0] == (0, 1)
  {
    AnchorsStartAtZero(Pow2(d));
    EdgeAtIndex(Anchors(Pow2(d)), d, 0, 0);
    assert Xor(0, 1) == 1;
  }

  /** One edge of the d-cube, as `CubeEdgesShape` describes them all. */
  lemma CubeEdgeShape(d: nat, k: nat)
    requires d <= 4 && k < |CubeEdges(d)|
    ensures EdgeAt(Anchors(Pow2(d)), d, k)
    ensures var (a, b) := CubeEdges(d)[k];
      0 <= a < Pow2(d) && 0 <= b < Pow2(d) && IsMainCorner(a) && !IsMainCorner(b) &&
      a == Anchors(Pow2(d))[Split(k, d).0] && b == Xor(a, Pow2(Split(k, d).1)) && Split(k, d).1 < d
  {
    var anchors := Anchors(Pow2(d));
    EdgePairsAt(anchors, d);
    assert EdgeAt(anchors, d, k);
    var (t, i) := Split(k, d);
    AnchorsSpec(Pow2(d));
    FlipStaysBelow(anchors[t], i, d);
    FlipChangesCorner(anchors[t], i);
  }

  /**
   * Every edge joins a main corner below 2^d to the value with one of its low `d` bits flipped,
   * which is itself below 2^d (so the point `find` looks for exists) and not a main corner.
   */
  lemma CubeEdgesShape(d: nat)
    requires d <= 4
    ensures |CubeEdges(d)| == |Anchors(Pow2(d))| * d
    ensures forall k :: 0 <= k < |CubeEdges(d)| ==>
      var (a, b) := CubeEdges(d)[k];
      0 <= a < Pow2(d) && 0 <= b < Pow2(d) && IsMainCorner(a) && !IsMainCorner(b) &&
      d > 0 && b == Xor(a, Pow2(Split(k, d).1)) && Split(k, d).1 < d
  {
    EdgePairsLength(Anchors(Pow2(d)), d);
    forall k | 0 <= k < |CubeEdges(d)|
      ensures var (a, b) := CubeEdges(d)[k];
        0 <= a < Pow2(d) && 0 <= b < Pow2(d) && IsMainCorner(a) && !IsMainCorner(b) &&
        d > 0 && b == Xor(a, Pow2(Split(k, d).1)) && Split(k, d).1 < d
    {
      CubeEdgeShape(d, k);
    }
  }

  /** With d <= 4 there are d * 2^(d-1) edges. */
  lemma CubeEdgesCount(d: nat)
    requires 1 <= d <= 4
    ensures |CubeEdges(d)| == d * Pow2(d - 1)
  {
    var anchors := Anchors(Pow2(d));
    EdgePairsLength(anchors, d);
    AnchorsCount(d);
    CountTimes(|CubeEdges(d)|, |anchors|, Pow2(d - 1), d);
  }

  lemma CountTimes(e: nat, n: nat, q: nat, d: nat)
    requires e == n * d && n == q
    ensures e == d * q
  {
  }

  /** Two different edges never join the same two values. */
  lemma CubeEdgePairDistinct(d: nat, k1: nat, k2: nat)
    requires d <= 4 && k1 < k2 < |CubeEdges(d)|
    ensures !SameEdge(CubeEdges(d)[k1], CubeEdges(d)[k2])
  {
    var anchors := Anchors(Pow2(d));
    var e := CubeEdges(d);
    CubeEdgeShape(d, k1);
    CubeEdgeShape(d, k2);
    var (t1, i1) := Split(k1, d);
    var (t2, i2) := Split(k2, d);
    // A first endpoint is a main corner, a second one is not.
    assert e[k1].0 != e[k2].1 && e[k1].1 != e[k2].0;
    if t1 == t2 {
      assert i1 != i2;
      var a := anchors[t1];
      XorBit(a, Pow2(i1), i1);
      XorBit(a, Pow2(i2), i1);
      Pow2Bit(i1, i1);
      Pow2Bit(i2, i1);
      assert Bit(e[k1].1, i1) != Bit(e[k2].1, i1);
    } else {
      AnchorsSpec(Pow2(d));
      assert anchors[t1] != anchors[t2];
    }
  }

  /** No two edges join the same two values. */
  lemma CubeEdgesDistinct(d: nat)
    requires d <= 4
    ensures forall k1, k2 :: 0 <= k1 < k2 < |CubeEdges(d)| ==> !SameEdge(CubeEdges(d)[k1], CubeEdges(d)[k2])
  {
    forall k1, k2 | 0 <= k1 < k2 < |CubeEdges(d)| ensures !SameEdge(CubeEdges(d)[k1], CubeEdges(d)[k2]) {
      CubeEdgePairDistinct(d, k1, k2);
    }
  }

  /** Every two values below 2^d that differ in exactly one bit are joined by some edge. */
  lemma CubeEdgesComplete(d: nat, u: nat, i: nat)
    requires d <= 4 && u < Pow2(d) && i < d
    ensures exists k :: 0 <= k < |CubeEdges(d)| && SameEdge(CubeEdges(d)[k], (u, Xor(u, Pow2(i))))
  {
    var n := Pow2(d);
    var w := Xor(u, Pow2(i));
    FlipChangesCorner(u, i);
    XorTwice(u, Pow2(i));
    var a := if IsMainCorner(u) then u else w;
    assert a < n && IsMainCorner(a) by { FlipStaysBelow(u, i, d); }
    var t := AnchorPos(n, a);
    EdgeAtIndex(Anchors(n), d, t, i);
    assert SameEdge(CubeEdges(d)[t * d + i], (u, w));
  }
}
