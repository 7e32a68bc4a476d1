/** Bit patterns of non-negative integers: the `&` and `^` the source applies to vertex values. */
module Bits {

  function Pow2(i: nat): (r: nat)
    ensures r >= 1
  {
    if i == 0 then 1 else 2 * Pow2(i - 1)
  }

  /** `(v & 2^i) != 0`: bit `i` of `v` is set. */
  function Bit(v: nat, i: nat): bool
  {
    if i == 0 then v % 2 == 1 else Bit(v / 2, i - 1)
  }

  /** `a ^ b` on non-negative integers, one bit at a time from the lowest. */
  function Xor(a: nat, b: nat): nat
    decreases a + b
  {
    if a == 0 && b == 0 then 0
    else 2 * Xor(a / 2, b / 2) + (if a % 2 != b % 2 then 1 else 0)
  }

  /** Bit `i` of `a ^ b` is set exactly when bit `i` is set in one operand but not the other. */
  lemma {:induction false} XorBit(a: nat, b: nat, i: nat)
    ensures Bit(Xor(a, b), i) == (Bit(a, i) != Bit(b, i))
    decreases i
  {
    if a == 0 && b == 0 {
      ZeroBit(i);
    } else {
      Halves(Xor(a / 2, b / 2), if a % 2 != b % 2 then 1 else 0);
      if i > 0 { XorBit(a / 2, b / 2, i - 1); }
    }
  }

  lemma Halves(x: nat, r: nat)
    requires r < 2
    ensures (2 * x + r) / 2 == x && (2 * x + r) % 2 == r
  {
  }

  lemma {:induction false} ZeroBit(i: nat)
    ensures !Bit(0, i)
  {
    if i > 0 { ZeroBit(i - 1); }
  }

  /** The mask `2^i` has exactly bit `i` set. */
  lemma {:induction false} Pow2Bit(i: nat, j: nat)
    ensures Bit(Pow2(i), j) == (i == j)
  {
    if i == 0 {
      if j > 0 { ZeroBit(j - 1); }
    } else if j > 0 {
      Pow2Bit(i - 1, j - 1);
    }
  }

  /** A value below `2^d` has no bit set at position `d` or above. */
  lemma {:induction false} HighBitsClear(v: nat, d: nat, i: nat)
    requires v < Pow2(d) && d <= i
    ensures !Bit(v, i)
  {
    if i == 0 {
    } else if d == 0 {
      assert v == 0;
      ZeroBit(i);
    } else {
      HighBitsClear(v / 2, d - 1, i - 1);
    }
  }

  /** Two values below `2^d` with the same low `d` bits are equal. */
  lemma {:induction false} BitsDetermine(a: nat, b: nat, d: nat)
    requires a < Pow2(d) && b < Pow2(d)
    requires forall j :: 0 <= j < d ==> Bit(a, j) == Bit(b, j)
    ensures a == b
  {
    if d > 0 {
      forall j | 0 <= j < d - 1 ensures Bit(a / 2, j) == Bit(b / 2, j) {
        assert Bit(a, j + 1) == Bit(b, j + 1);
      }
      BitsDetermine(a / 2, b / 2, d - 1);
      assert Bit(a, 0) == Bit(b, 0);
    }
  }

  /** `a ^ b` stays below `2^d` when both operands do. */
  lemma {:induction false} XorBound(a: nat, b: nat, d: nat)
    requires a < Pow2(d) && b < Pow2(d)
    ensures Xor(a, b) < Pow2(d)
  {
    if d > 0 && !(a == 0 && b == 0) {
      XorBound(a / 2, b / 2, d - 1);
    }
  }

  lemma {:induction false} XorCommutes(a: nat, b: nat)
    ensures Xor(a, b) == Xor(b, a)
    decreases a + b
  {
    if !(a == 0 && b == 0) { XorCommutes(a / 2, b / 2); }
  }

  /** Applying the same mask twice gives the value back. */
  lemma {:induction false} XorTwice(a: nat, b: nat)
    ensures Xor(Xor(a, b), b) == a
    decreases a + b
  {
    if !(a == 0 && b == 0) {
      XorTwice(a / 2, b / 2);
      Halves(Xor(a / 2, b / 2), if a % 2 != b % 2 then 1 else 0);
    }
  }

  /** Different masks move the same value to different places. */
  lemma XorCancel(a: nat, b: nat, c: nat)
    requires Xor(a, b) == Xor(a, c)
    ensures b == c
  {
    XorCommutes(a, b);
    XorCommutes(a, c);
    XorTwice(b, a);
    XorTwice(c, a);
  }

  lemma {:induction false} Pow2Monotone(i: nat, j: nat)
    requires i < j
    ensures Pow2(i) < Pow2(j)
  {
    if i + 1 < j { Pow2Monotone(i, j - 1); }
  }

  lemma Pow2Injective(i: nat, j: nat)
    requires Pow2(i) == Pow2(j)
    ensures i == j
  {
    if i < j { Pow2Monotone(i, j); }
    if j < i { Pow2Monotone(j, i); }
  }

  lemma {:induction false} XorZero(a: nat)
    ensures Xor(a, 0) == a
    decreases a
  {
    if a != 0 {
      XorZero(a / 2);
    }
  }

  /** Setting a clear bit adds its mask. */
  lemma {:induction false} XorSetsBit(v: nat, i: nat)
    requires !Bit(v, i)
    ensures Xor(v, Pow2(i)) == v + Pow2(i)
  {
    if i == 0 {
      XorZero(v / 2);
    } else {
      XorSetsBit(v / 2, i - 1);
      Halves(Xor(v / 2, Pow2(i - 1)), v % 2);
    }
  }

  /** Clearing a set bit subtracts its mask. */
  lemma {:induction false} XorClearsBit(v: nat, i: nat)
    requires Bit(v, i)
    ensures Xor(v, Pow2(i)) + Pow2(i) == v
  {
    if i == 0 {
      XorZero(v / 2);
    } else {
      XorClearsBit(v / 2, i - 1);
      Halves(Xor(v / 2, Pow2(i - 1)), v % 2);
    }
  }

  /** The position of the lowest set bit of a positive value. */
  function LowestBit(v: nat): (i: nat)
    requires v > 0
    ensures Bit(v, i)
    decreases v
  {
    if v % 2 == 1 then 0 else 1 + LowestBit(v / 2)
  }

  lemma {:induction false} LowestBitBelow(v: nat, d: nat)
    requires 0 < v < Pow2(d)
    ensures LowestBit(v) < d
  {
    if v % 2 == 0 {
      LowestBitBelow(v / 2, d - 1);
    }
  }

  /** Flipping one of the low `d` bits changes the value and keeps it below `2^d`. */
  lemma FlipStaysBelow(v: nat, i: nat, d: nat)
    requires v < Pow2(d) && i < d
    ensures Xor(v, Pow2(i)) < Pow2(d) && Xor(v, Pow2(i)) != v
  {
    Pow2Monotone(i, d);
    XorBound(v, Pow2(i), d);
    XorBit(v, Pow2(i), i);
    Pow2Bit(i, i);
  }

  /** Flipping two different bits gives two different values. */
  lemma FlipsDiffer(v: nat, i: nat, j: nat)
    requires i != j
    ensures Xor(v, Pow2(i)) != Xor(v, Pow2(j))
  {
    XorBit(v, Pow2(i), i);
    XorBit(v, Pow2(j), i);
    Pow2Bit(i, i);
    Pow2Bit(j, i);
  }
}
