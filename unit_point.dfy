/**
 * A hypercube vertex: its value read as a bit pattern (X = 1, Y = 2, Z = 4, W = 8), the
 * immutable base vector derived from it, and the rotation state that the animation advances.
 */
module UnitPoints {
  import opened Bits
  import opened Matrices

  /** The number of the mask bits 1, 2, 4 and 8 that are set in `v`. */
  function BitsSum(v: nat): nat
  {
    (if Bit(v, 0) then 1 else 0) + (if Bit(v, 1) then 1 else 0) +
    (if Bit(v, 2) then 1 else 0) + (if Bit(v, 3) then 1 else 0)
  }

  /** `isMainCorner`: an even number of the four mask bits is set. */
  predicate IsMainCorner(v: nat)
  {
    BitsSum(v) % 2 == 0
  }

  /** Flipping one of the four mask bits flips whether a value is a main corner. */
  lemma FlipChangesCorner(v: nat, i: nat)
    requires i < 4
    ensures IsMainCorner(Xor(v, Pow2(i))) == !IsMainCorner(v)
  {
    var u := Xor(v, Pow2(i));
    forall j | 0 <= j < 4 ensures Bit(u, j) == (Bit(v, j) != (i == j)) {
      XorBit(v, Pow2(i), j);
      Pow2Bit(i, j);
    }
  }

  function Indicator(b: bool): real { if b then 1.0 else 0.0 }

  /** The vertex's corner of the unit tesseract, moved by `offset`. */
  function BaseVector(v: nat, offset: Vector4): Vector4
  {
    Vector4(Indicator(Bit(v, 0)) + offset.x, Indicator(Bit(v, 1)) + offset.y,
            Indicator(Bit(v, 2)) + offset.z, Indicator(Bit(v, 3)) + offset.w)
  }

  /** Distinct values below 16 sit at distinct corners: the base vector determines the value. */
  lemma BaseVectorInjective(a: nat, b: nat, offset: Vector4)
    requires a < 16 && b < 16
    requires BaseVector(a, offset) == BaseVector(b, offset)
    ensures a == b
  {
    forall j | 0 <= j < 4 ensures Bit(a, j) == Bit(b, j) {
      assert Indicator(Bit(a, j)) == Indicator(Bit(b, j));
    }
    assert Pow2(4) == 16;
    BitsDetermine(a, b, 4);
  }

  class UnitPoint {
    const value: nat
    const scalingFactor: real
    const offset: Vector4
    /** `_orgVector`: assigned once, never changed. */
    const baseVector: Vector4
    /** `_vector`: the current, rotated position. */
    var vector: Position
    /** `_rotationMatrix4D`: the transform each `rotate` applies. */
    var rotationMatrix: Matrix4
    /** Rotations applied since the transform was last installed. */
    ghost var rotations: nat

    /** The current position is the installed transform applied `rotations` times to the base vector. */
    ghost predicate Valid()
      reads this
    {
      vector == Power(rotationMatrix, rotations, Base(baseVector))
    }

    constructor (value: nat, scalingFactor: real, offset: Vector4)
      ensures this.value == value && this.scalingFactor == scalingFactor && this.offset == offset
      ensures baseVector == BaseVector(value, offset)
      ensures vector == Base(baseVector) && rotationMatrix == Times(Identity, Identity) && rotations == 0
      ensures Valid()
    {
      this.value := value;
      this.scalingFactor := scalingFactor;
      this.offset := offset;
      baseVector := BaseVector(value, offset);
      new;
      SetRotationMatrix(Identity);
    }

    /** `isMainCorner()`. */
    predicate MainCorner()
    {
      IsMainCorner(value)
    }

    /** `xor(m)`: the value with the bits of `m` flipped. */
    function XorWith(m: nat): (r: nat)
      ensures Xor(r, m) == value
    {
      XorTwice(value, m);
      Xor(value, m)
    }

    /**
     * `setRotationMatrix(m)`: whatever rotations came before, the position goes back to the
     * base vector, and a copy of `m` (the identity multiplied by `m`) becomes the transform.
     */
    method SetRotationMatrix(m: Matrix4)
      modifies this
      ensures vector == Base(baseVector) && rotationMatrix == Times(Identity, m) && rotations == 0
      ensures Valid()
    {
      vector := Base(baseVector);
      rotationMatrix := Times(Identity, m);
      rotations := 0;
    }

    /** `rotate()`: applies the installed transform to the current position, not to the base. */
    method Rotate()
      requires Valid()
      modifies this
      ensures rotationMatrix == old(rotationMatrix) && rotations == old(rotations) + 1
      ensures vector == Applied(rotationMatrix, old(vector))
      ensures Valid()
    {
      vector := Applied(rotationMatrix, vector);
      rotations := rotations + 1;
    }
  }
}
