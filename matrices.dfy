/**
 * three.js `Matrix4` and `Vector4` as values. A matrix is kept as the expression that built it
 * (identity, products, a rotation template filled in for an angle); `Eval` gives its sixteen
 * entries in three.js's column-major order once values for sine and cosine are supplied.
 */
module Matrices {

  /** One entry of a rotation template: a constant, or a placeholder for cos, sin or -sin. */
  datatype Entry = Zero | One | Cos | Sin | NegSin

  datatype Matrix4 =
    | Identity                                        // `new Matrix4()`
    | Times(left: Matrix4, right: Matrix4)            // `left.multiply(right)`
    | Substituted(template: seq<Entry>, angle: real)  // a template filled in for `angle`

  datatype Vector4 = Vector4(x: real, y: real, z: real, w: real)

  /** A 4D position as the expression that produced it: a base vector, or a matrix applied to a position. */
  datatype Position = Base(v: Vector4) | Applied(m: Matrix4, p: Position)

  /** `m` applied `k` times to `p`. */
  function Power(m: Matrix4, k: nat, p: Position): Position
  {
    if k == 0 then p else Applied(m, Power(m, k - 1, p))
  }

  /** The entries of the identity, column-major (index = column * 4 + row). */
  function IdentityEntries(): (r: seq<real>)
    ensures |r| == 16
    ensures forall id :: 0 <= id < 16 ==> r[id] == if id % 4 == id / 4 then 1.0 else 0.0
  {
    seq(16, id => if id % 4 == id / 4 then 1.0 else 0.0)
  }

  /** `Matrix4.multiply`: entry (row, col) of a * b is the sum over k of a(row, k) * b(k, col). */
  function Mul(a: seq<real>, b: seq<real>): (r: seq<real>)
    requires |a| == 16 && |b| == 16
    ensures |r| == 16
  {
    seq(16, id requires 0 <= id < 16 =>
      var row, col := id % 4, id / 4;
      a[row] * b[col * 4] + a[4 + row] * b[col * 4 + 1] + a[8 + row] * b[col * 4 + 2] + a[12 + row] * b[col * 4 + 3])
  }

  /** The numeric value of a template entry for the given sine and cosine. */
  function EntryValue(e: Entry, sin: real, cos: real): real
  {
    match e
    case Zero => 0.0
    case One => 1.0
    case Cos => cos
    case Sin => sin
    case NegSin => -sin
  }

  /** Matrix entries, given the sine and cosine functions; a template of the wrong size reads as the identity. */
  function Eval(m: Matrix4, sin: real -> real, cos: real -> real): (r: seq<real>)
    ensures |r| == 16
  {
    match m
    case Identity => IdentityEntries()
    case Times(l, r) => Mul(Eval(l, sin, cos), Eval(r, sin, cos))
    case Substituted(t, angle) =>
      if |t| == 16 then seq(16, id requires 0 <= id < 16 => EntryValue(t[id], sin(angle), cos(angle)))
      else IdentityEntries()
  }

  /** Multiplying by the identity on the left changes nothing: `new Matrix4().multiply(m)` is a copy of `m`. */
  lemma MulIdentityLeft(b: seq<real>)
    requires |b| == 16
    ensures Mul(IdentityEntries(), b) == b
  {
    var a := IdentityEntries();
    forall id | 0 <= id < 16 ensures Mul(a, b)[id] == b[id] {
      var row, col := id % 4, id / 4;
      assert id == col * 4 + row;
      assert a[row] == (if row == 0 then 1.0 else 0.0);
      assert a[4 + row] == (if row == 1 then 1.0 else 0.0);
      assert a[8 + row] == (if row == 2 then 1.0 else 0.0);
      assert a[12 + row] == (if row == 3 then 1.0 else 0.0);
    }
  }

  /** Multiplying by the identity on the right changes nothing either. */
  lemma MulIdentityRight(a: seq<real>)
    requires |a| == 16
    ensures Mul(a, IdentityEntries()) == a
  {
    var b := IdentityEntries();
    forall id | 0 <= id < 16 ensures Mul(a, b)[id] == a[id] {
      var row, col := id % 4, id / 4;
      assert id == col * 4 + row && 0 <= col < 4;
      IdentityColumn(col);
    }
  }

  /** Column `col` of the identity: 1 in row `col`, 0 elsewhere. */
  lemma IdentityColumn(col: int)
    requires 0 <= col < 4
    ensures var b := IdentityEntries();
      b[col * 4] == (if col == 0 then 1.0 else 0.0) && b[col * 4 + 1] == (if col == 1 then 1.0 else 0.0) &&
      b[col * 4 + 2] == (if col == 2 then 1.0 else 0.0) && b[col * 4 + 3] == (if col == 3 then 1.0 else 0.0)
  {
    var b := IdentityEntries();
    if col == 0 {
      assert b[0] == 1.0 && b[1] == 0.0 && b[2] == 0.0 && b[3] == 0.0;
    } else if col == 1 {
      assert b[4] == 0.0 && b[5] == 1.0 && b[6] == 0.0 && b[7] == 0.0;
    } else if col == 2 {
      assert b[8] == 0.0 && b[9] == 0.0 && b[10] == 1.0 && b[11] == 0.0;
    } else {
      assert b[12] == 0.0 && b[13] == 0.0 && b[14] == 0.0 && b[15] == 1.0;
    }
  }

  /** The copy `new Matrix4().multiply(m)` has the same entries as `m`, whatever sine and cosine are. */
  lemma CopyEvaluatesAlike(m: Matrix4, sin: real -> real, cos: real -> real)
    ensures Eval(Times(Identity, m), sin, cos) == Eval(m, sin, cos)
  {
    MulIdentityLeft(Eval(m, sin, cos));
  }
}
