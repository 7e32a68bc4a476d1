/** The few JavaScript string operations the catalog and the plane names use on 4-bit values. */
module JsStrings {
  import opened Bits

  function Digit(b: bool): char
  {
    if b then '1' else '0'
  }

  /** `n.toString(2)`: the binary digits of `n`, most significant first, with no leading zeros. */
  function ToBinary(n: nat): string
    decreases n
  {
    if n < 2 then [Digit(n == 1)] else ToBinary(n / 2) + [Digit(n % 2 == 1)]
  }

  /** `s.padStart(n, c)`. */
  function PadStart(s: string, n: nat, c: char): string
  {
    if |s| >= n then s else seq(n - |s|, _ => c) + s
  }

  /** `id.toString(2).padStart(4, '0')`. */
  function Binary4(id: nat): string
  {
    PadStart(ToBinary(id), 4, '0')
  }

  /** `s.indexOf(c, from)`: the first position at or after `from` holding `c`, or -1. */
  function IndexFrom(s: string, c: char, from: nat): (i: int)
    ensures i >= -1
    decreases |s| - from
  {
    if from >= |s| then -1 else if s[from] == c then from else IndexFrom(s, c, from + 1)
  }

  /** `indexOf` finds the first occurrence at or after `from`, and -1 exactly when there is none. */
  lemma {:induction false} IndexFromSpec(s: string, c: char, from: nat)
    ensures var i := IndexFrom(s, c, from);
      (i == -1 || from <= i < |s|) &&
      (i == -1 <==> forall j :: from <= j < |s| ==> s[j] != c) &&
      (i >= 0 ==> s[i] == c && forall j :: from <= j < i ==> s[j] != c)
    decreases |s| - from
  {
    if from < |s| && s[from] != c {
      IndexFromSpec(s, c, from + 1);
    }
  }

  /** The lowest `k` bits of `n` as digits, most significant first. */
  function Digits(n: nat, k: nat): (s: string)
    ensures |s| == k
  {
    if k == 0 then [] else Digits(n / 2, k - 1) + [Digit(n % 2 == 1)]
  }

  lemma {:induction false} ZeroDigits(k: nat)
    ensures Digits(0, k) == seq(k, _ => '0')
  {
    if k > 0 {
      ZeroDigits(k - 1);
    }
  }

  /** Padding the binary digits of a value below 2^k to length k gives its k lowest bits. */
  lemma {:induction false} PaddedBinary(n: nat, k: nat)
    requires k >= 1 && n < Pow2(k)
    ensures |ToBinary(n)| <= k
    ensures PadStart(ToBinary(n), k, '0') == Digits(n, k)
  {
    if n < 2 {
      ZeroDigits(k - 1);
      assert Digits(n, k) == Digits(0, k - 1) + [Digit(n == 1)];
    } else {
      var t := ToBinary(n / 2);
      PaddedBinary(n / 2, k - 1);
      assert ToBinary(n) == t + [Digit(n % 2 == 1)];
      assert PadStart(t + [Digit(n % 2 == 1)], k, '0') == PadStart(t, k - 1, '0') + [Digit(n % 2 == 1)];
    }
  }

  /** Digit `j` of the k lowest bits is bit `k - 1 - j`. */
  lemma {:induction false} DigitsBits(n: nat, k: nat)
    ensures forall j :: 0 <= j < k ==> Digits(n, k)[j] == Digit(Bit(n, k - 1 - j))
  {
    if k > 0 {
      DigitsBits(n / 2, k - 1);
    }
  }

  /** Below 16, the four digits are the bits 8, 4, 2 and 1 in that order, each '0' or '1'. */
  lemma Binary4Bits(id: nat)
    requires id < 16
    ensures |Binary4(id)| == 4
    ensures forall j :: 0 <= j < 4 ==> Binary4(id)[j] == Digit(Bit(id, 3 - j))
  {
    assert Pow2(4) == 16;
    PaddedBinary(id, 4);
    DigitsBits(id, 4);
  }
}
