/** Properties of adjacency lists, on the plain map from a vertex value to its list. */
module GraphProperties {

  type Lists = map<int, seq<int>>

  /** `y` is listed under `x` as often as `x` is listed under `y`. */
  ghost predicate Symmetric(m: Lists) {
    forall x, y :: x in m && y in m ==> multiset(m[x])[y] == multiset(m[y])[x]
  }

  /** Every listed neighbour is itself a key. */
  ghost predicate Closed(m: Lists) {
    forall x, y :: x in m && y in m[x] ==> y in m
  }

  /** No vertex lists itself. */
  ghost predicate LoopFree(m: Lists) {
    forall x :: x in m ==> x !in m[x]
  }

  ghost predicate AllEven(m: Lists) {
    forall x :: x in m ==> |m[x]| % 2 == 0
  }

  /** `rem` has the keys of `g` and lists no entry more often than `g` does. */
  ghost predicate Within(rem: Lists, g: Lists) {
    rem.Keys == g.Keys && forall x, y :: x in rem ==> multiset(rem[x])[y] <= multiset(g[x])[y]
  }

  /** In a symmetric map, listing is a symmetric relation. */
  lemma SymmetricListing(m: Lists, x: int, y: int)
    requires Symmetric(m) && Closed(m) && x in m && y in m[x]
    ensures y in m && x in m[y]
  {
    assert multiset(m[x])[y] > 0;
  }

  /** Dropping entries keeps a map closed and loop-free. */
  lemma WithinInherits(rem: Lists, g: Lists)
    requires Within(rem, g) && Closed(g) && LoopFree(g)
    ensures Closed(rem) && LoopFree(rem)
  {
    forall x, y | x in rem && y in rem[x] ensures y in rem {
      assert multiset(rem[x])[y] > 0;
      assert multiset(g[x])[y] > 0;
    }
    forall x | x in rem ensures x !in rem[x] {
      assert multiset(g[x])[x] == 0;
    }
  }
}
