/** Small sequence helpers mirroring the JavaScript array operations the source uses. */
module Sequences {

  ghost predicate NoDup<T>(s: seq<T>) {
    forall i, j :: 0 <= i < j < |s| ==> s[i] != s[j]
  }

  /** `Array.prototype.indexOf`: the first index of `x`, or -1. */
  function IndexOf<T(==)>(s: seq<T>, x: T): (i: int)
    ensures -1 <= i < |s|
    ensures i == -1 <==> x !in s
    ensures 0 <= i ==> s[i] == x && forall k :: 0 <= k < i ==> s[k] != x
  {
    if |s| == 0 then -1
    else if s[0] == x then 0
    else var r := IndexOf(s[1..], x); if r == -1 then -1 else r + 1
  }

  /** `splice(i, 1)` at a valid index. */
  function RemoveAt<T>(s: seq<T>, i: nat): (r: seq<T>)
    requires i < |s|
    ensures |r| == |s| - 1
    ensures multiset(r) == multiset(s) - multiset{s[i]}
    ensures forall p :: 0 <= p < |r| ==> r[p] == if p < i then s[p] else s[p + 1]
  {
    assert s == s[..i] + [s[i]] + s[i + 1..];
    s[..i] + s[i + 1..]
  }

  /** `indexOf` followed by `splice(index, 1)` when the index is found; unchanged otherwise. */
  function RemoveFirst<T(==)>(s: seq<T>, x: T): (r: seq<T>)
    ensures x in s ==> multiset(r) == multiset(s) - multiset{x} && |r| == |s| - 1
    ensures x !in s ==> r == s
  {
    var i := IndexOf(s, x);
    if i == -1 then s else RemoveAt(s, i)
  }

  /** The elements of `r` come in the order of their first occurrences in `s`. */
  ghost predicate InFirstOccurrenceOrder<T>(r: seq<T>, s: seq<T>)
  {
    forall i, j :: 0 <= i < j < |r| ==> IndexOf(s, r[i]) < IndexOf(s, r[j])
  }

  /** `Array.from(new Set(s))`: the first occurrence of every element, in order. */
  function Dedup<T(==)>(s: seq<T>): (r: seq<T>)
    ensures NoDup(r)
    ensures forall i :: 0 <= i < |r| ==> r[i] in s
    ensures forall i :: 0 <= i < |s| ==> s[i] in r
  {
    DedupInto([], s)
  }

  /** `Array.from(new Set(s))` keeps the elements in the order of their first occurrences in `s`. */
  lemma {:induction false} DedupOrder<T>(s: seq<T>)
    ensures InFirstOccurrenceOrder(Dedup(s), s)
  {
    DedupIntoOrder([], s);
  }

  function DedupInto<T(==)>(acc: seq<T>, s: seq<T>): (r: seq<T>)
    requires NoDup(acc)
    ensures NoDup(r)
    ensures forall i :: 0 <= i < |r| ==> r[i] in acc || r[i] in s
    ensures forall i :: 0 <= i < |acc| ==> acc[i] in r
    ensures forall i :: 0 <= i < |s| ==> s[i] in r
    decreases |s|
  {
    if |s| == 0 then acc
    else
      var acc' := if s[0] in acc then acc else acc + [s[0]];
      var r := DedupInto(acc', s[1..]);
      assert forall i :: 0 <= i < |acc| ==> acc[i] == acc'[i];
      assert s[0] in acc';
      assert forall i :: 1 <= i < |s| ==> s[i] == s[1..][i - 1];
      r
  }

  /** `DedupInto` keeps `acc` as it is and only appends. */
  lemma {:induction false} DedupIntoPrefix<T>(acc: seq<T>, s: seq<T>)
    requires NoDup(acc)
    ensures acc <= DedupInto(acc, s)
    decreases |s|
  {
    if |s| > 0 {
      var acc' := if s[0] in acc then acc else acc + [s[0]];
      assert DedupInto(acc, s) == DedupInto(acc', s[1..]);
      DedupIntoPrefix(acc', s[1..]);
    }
  }

  /** The elements `DedupInto` adds after `acc` come in the order of their first occurrence in `s`. */
  lemma {:induction false} DedupIntoOrder<T>(acc: seq<T>, s: seq<T>)
    requires NoDup(acc)
    ensures forall i, j :: |acc| <= i < j < |DedupInto(acc, s)| ==>
      IndexOf(s, DedupInto(acc, s)[i]) < IndexOf(s, DedupInto(acc, s)[j])
    decreases |s|
  {
    if |s| > 0 {
      var acc' := if s[0] in acc then acc else acc + [s[0]];
      var r := DedupInto(acc, s);
      assert r == DedupInto(acc', s[1..]);
      DedupIntoOrder(acc', s[1..]);
      DedupIntoPrefix(acc', s[1..]);
      forall k | |acc'| <= k < |r| ensures r[k] !in acc' && r[k] in s[1..] && IndexOf(s, r[k]) == IndexOf(s[1..], r[k]) + 1 {
        forall m | 0 <= m < |acc'| ensures acc'[m] != r[k] {
          assert acc'[m] == r[m];
        }
        assert s[0] in acc';
      }
      forall i, j | |acc| <= i < j < |r| ensures IndexOf(s, r[i]) < IndexOf(s, r[j]) {
        if i < |acc'| {
          assert r[i] == s[0];
        }
      }
    }
  }

  /** A duplicate-free sequence holds each of its elements exactly once. */
  lemma {:induction false} NoDupCount<T>(s: seq<T>, x: T)
    requires NoDup(s)
    ensures multiset(s)[x] == if x in s then 1 else 0
  {
    if |s| > 0 {
      assert s == [s[0]] + s[1..];
      assert NoDup(s[1..]) by {
        forall i, j | 0 <= i < j < |s[1..]| ensures s[1..][i] != s[1..][j] {
          assert s[1..][i] == s[i + 1] && s[1..][j] == s[j + 1];
        }
      }
      NoDupCount(s[1..], x);
      assert s[0] !in s[1..] by {
        forall k | 0 <= k < |s[1..]| ensures s[1..][k] != s[0] {
          assert s[1..][k] == s[k + 1];
        }
      }
    }
  }

  /** Removing one element of a duplicate-free sequence removes exactly that value. */
  lemma NoDupRemoveAt<T>(s: seq<T>, i: nat)
    requires NoDup(s) && i < |s|
    ensures NoDup(RemoveAt(s, i))
    ensures forall x :: x in RemoveAt(s, i) <==> x in s && x != s[i]
  {
    var r := RemoveAt(s, i);
    assert r == s[..i] + s[i + 1..];
    assert forall p :: 0 <= p < |r| ==> r[p] == if p < i then s[p] else s[p + 1];
    forall x ensures x in r <==> x in s && x != s[i] {
      NoDupCount(s, x);
      assert x in r <==> multiset(r)[x] > 0;
    }
  }

  lemma NoDupPrefix<T>(s: seq<T>, n: nat)
    requires NoDup(s) && n <= |s|
    ensures NoDup(s[..n])
  {
    assert forall p :: 0 <= p < n ==> s[..n][p] == s[p];
  }

  lemma PrefixTransitive<T>(a: seq<T>, b: seq<T>, c: seq<T>)
    requires a <= b && b <= c
    ensures a <= c
  {
    assert c[..|b|] == b;
    assert c[..|a|] == c[..|b|][..|a|];
  }

  /** Two duplicate-free sequences with the same elements have the same length. */
  lemma NoDupSameLength<T>(a: seq<T>, b: seq<T>)
    requires NoDup(a) && NoDup(b) && forall x :: x in a <==> x in b
    ensures |a| == |b|
  {
    forall x ensures multiset(a)[x] == multiset(b)[x] {
      NoDupCount(a, x);
      NoDupCount(b, x);
    }
    assert multiset(a) == multiset(b);
  }

  /** Without repeats, `Array.from(new Set(s))` is `s` itself. */
  lemma DedupDistinct<T>(s: seq<T>)
    requires NoDup(s)
    ensures Dedup(s) == s
  {
    DedupIntoDistinct([], s);
  }

  lemma {:induction false} DedupIntoDistinct<T>(acc: seq<T>, s: seq<T>)
    requires NoDup(acc + s)
    ensures NoDup(acc) && DedupInto(acc, s) == acc + s
    decreases |s|
  {
    assert forall i :: 0 <= i < |acc| ==> (acc + s)[i] == acc[i];
    if |s| > 0 {
      assert (acc + s)[|acc|] == s[0];
      assert s[0] !in acc by {
        forall i | 0 <= i < |acc| ensures acc[i] != s[0] {
          assert (acc + s)[i] == acc[i];
        }
      }
      assert (acc + [s[0]]) + s[1..] == acc + s;
      DedupIntoDistinct(acc + [s[0]], s[1..]);
    }
  }
}
