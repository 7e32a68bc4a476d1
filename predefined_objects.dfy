/**
 * The catalog of predefined objects: the integer offsets of the multi-shape structures, the
 * catalog entries with their drawing flags, and the list with its name lookup.
 *
 * The bit masks here are most significant first: X = 8, Y = 4, Z = 2, W = 1, so axis `a`
 * (X = 0, Y = 1, Z = 2, W = 3) is bit `3 - a`.
 */
module PredefinedObjects {
  import opened Wrappers
  import opened Bits
  import opened Matrices
  import opened JsStrings
  import opened GeometricShapes

  /** `value & BIT_MASKS[axis]` is non-zero. */
  predicate AxisSet(v: nat, axis: nat)
    requires axis < 4
  {
    Bit(v, 3 - axis)
  }

  /** `new Array(n).fill(0).map((_, id) => id)`. */
  function Ascending(n: nat): seq<nat>
  {
    seq(n, i requires 0 <= i < n => i)
  }

  function Negated(v: Vector4): Vector4
  {
    Vector4(-v.x, -v.y, -v.z, -v.w)
  }

  // ---------------------------------------------------------------- createInvariantPoints

  /** The filter: W clear and exactly two of X, Y, Z set. */
  predicate Invariant(v: nat)
  {
    if AxisSet(v, 3) then false
    else (if AxisSet(v, 0) then 1 else 0) + (if AxisSet(v, 1) then 1 else 0) + (if AxisSet(v, 2) then 1 else 0) == 2
  }

  function InvariantValues(ids: seq<nat>): (r: seq<nat>)
    ensures forall i :: 0 <= i < |r| ==> Invariant(r[i])
    ensures forall i :: 0 <= i < |r| ==> exists j :: 0 <= j < |ids| && ids[j] == r[i]
  {
    if |ids| == 0 then []
    else
      var pre := InvariantValues(ids[..|ids| - 1]);
      var last := ids[|ids| - 1];
      assert forall i :: 0 <= i < |pre| ==> exists j :: 0 <= j < |ids| && ids[j] == pre[i] by {
        forall i | 0 <= i < |pre| ensures exists j :: 0 <= j < |ids| && ids[j] == pre[i] {
          var j :| 0 <= j < |ids| - 1 && ids[..|ids| - 1][j] == pre[i];
          assert ids[j] == pre[i];
        }
      }
      pre + (if Invariant(last) then [last] else [])
  }

  /** Coordinate `k` of the first offset of a value: 1 on its first axis, -1 on its second. */
  function Coord(firstIndex: int, secondIndex: int, k: int): real
  {
    if firstIndex == k then 1.0 else if secondIndex == k then -1.0 else 0.0
  }

  /** Coordinate `k` of the second offset: -1 on the first axis, 1 on the second. */
  function CoordNeg(firstIndex: int, secondIndex: int, k: int): real
  {
    if firstIndex == k then -1.0 else if secondIndex == k then 1.0 else 0.0
  }

  /** The two offsets the reduce step appends for one value, from its 4-digit binary form. */
  function OffsetPair(id: nat): seq<Vector4>
  {
    var binary := Binary4(id);
    var firstIndex := IndexFrom(binary, '1', 0);
    var secondIndex := IndexFrom(binary, '1', firstIndex + 1);
    PairOf(firstIndex, secondIndex)
  }

  function PairOf(firstIndex: int, secondIndex: int): (p: seq<Vector4>)
    ensures |p| == 2
  {
    [Vector4(Coord(firstIndex, secondIndex, 0), Coord(firstIndex, secondIndex, 1), Coord(firstIndex, secondIndex, 2), 0.0),
     Vector4(CoordNeg(firstIndex, secondIndex, 0), CoordNeg(firstIndex, secondIndex, 1), CoordNeg(firstIndex, secondIndex, 2), 0.0)]
  }

  /** For two different axes among X, Y, Z, both offsets are invariant offsets and negate each other. */
  lemma PairShape(f: int, s: int)
    requires 0 <= f < s < 3
    ensures InvariantPair(PairOf(f, s))
  {
    var p := PairOf(f, s);
    if f == 0 && s == 1 {
      assert p[0] == Vector4(1.0, -1.0, 0.0, 0.0) && p[1] == Vector4(-1.0, 1.0, 0.0, 0.0);
    } else if f == 0 {
      assert p[0] == Vector4(1.0, 0.0, -1.0, 0.0) && p[1] == Vector4(-1.0, 0.0, 1.0, 0.0);
    } else {
      assert p[0] == Vector4(0.0, 1.0, -1.0, 0.0) && p[1] == Vector4(0.0, -1.0, 1.0, 0.0);
    }
  }

  /** The reduce: each value's pair appended in turn. */
  function OffsetsOf(ids: seq<nat>): (r: seq<Vector4>)
    ensures |r| == 2 * |ids|
  {
    if |ids| == 0 then [] else OffsetsOf(ids[..|ids| - 1]) + OffsetPair(ids[|ids| - 1])
  }

  /** `createInvariantPoints`, as the offsets of the points it creates. */
  function InvariantOffsets(): seq<Vector4>
  {
    OffsetsOf(InvariantValues(Ascending(16)))
  }

  predicate UnitCoord(c: real)
  {
    c == -1.0 || c == 0.0 || c == 1.0
  }

  /** The offsets the source calls invariant: w = 0, unit coordinates, x + y + z = 0. */
  predicate InvariantOffset(v: Vector4)
  {
    v.w == 0.0 && UnitCoord(v.x) && UnitCoord(v.y) && UnitCoord(v.z) && v.x + v.y + v.z == 0.0
  }

  /** For a value the filter keeps, the two '1' digits sit at two of the positions 0, 1, 2. */
  lemma InvariantIndices(id: nat)
    requires id < 16 && Invariant(id)
    ensures var binary := Binary4(id);
      var firstIndex := IndexFrom(binary, '1', 0);
      var secondIndex := IndexFrom(binary, '1', firstIndex + 1);
      0 <= firstIndex < secondIndex < 3
  {
    Binary4Bits(id);
    var binary := Binary4(id);
    assert binary[3] == '0';
    var f := IndexFrom(binary, '1', 0);
    IndexFromSpec(binary, '1', 0);
    assert f != -1 by {
      assert binary[0] == '1' || binary[1] == '1';
    }
    IndexFromSpec(binary, '1', f + 1);
    var s := IndexFrom(binary, '1', f + 1);
    assert f < 2;
    assert s != -1 by {
      if f == 0 {
        assert binary[1] == '1' || binary[2] == '1';
      } else {
        assert binary[2] == '1';
      }
    }
  }

  /** Both offsets of a kept value are invariant offsets, and the second is the first negated. */
  lemma OffsetPairShape(id: nat)
    requires id < 16 && Invariant(id)
    ensures InvariantPair(OffsetPair(id))
  {
    InvariantIndices(id);
    var binary := Binary4(id);
    var firstIndex := IndexFrom(binary, '1', 0);
    PairShape(firstIndex, IndexFrom(binary, '1', firstIndex + 1));
  }

  /** The filter over 0..n-1, collected from the smallest value up. */
  function InvariantBelow(n: nat): seq<nat>
  {
    if n == 0 then [] else InvariantBelow(n - 1) + (if Invariant(n - 1) then [n - 1] else [])
  }

  lemma {:induction false} InvariantBelowSpec(n: nat)
    ensures InvariantValues(Ascending(n)) == InvariantBelow(n)
  {
    if n > 0 {
      assert Ascending(n)[..n - 1] == Ascending(n - 1);
      InvariantBelowSpec(n - 1);
    }
  }

  lemma InvariantBelow8() ensures InvariantBelow(8) == [6] {}
  lemma InvariantBelow16() ensures InvariantBelow(16) == [6, 10, 12] { InvariantBelow8(); }

  /** The values kept are 6, 10 and 12 (YZ, XZ and XY), so six offsets are created. */
  lemma InvariantValuesValue()
    ensures InvariantValues(Ascending(16)) == [6, 10, 12]
    ensures |InvariantOffsets()| == 6
  {
    InvariantBelowSpec(16);
    InvariantBelow16();
  }

  /** Two invariant offsets, the second the first negated. */
  predicate InvariantPair(p: seq<Vector4>)
  {
    |p| == 2 && InvariantOffset(p[0]) && InvariantOffset(p[1]) && p[1] == Negated(p[0])
  }

  predicate AllInvariant(r: seq<Vector4>)
  {
    forall k :: 0 <= k < |r| ==> InvariantOffset(r[k])
  }

  /** Entry `2i + 1` is entry `2i` negated. */
  predicate Negates(r: seq<Vector4>, i: nat)
  {
    2 * i + 1 < |r| && r[2 * i + 1] == Negated(r[2 * i])
  }

  /** `n` consecutive pairs, the second of each the first negated. */
  predicate NegatedPairs(r: seq<Vector4>, n: nat)
  {
    |r| == 2 * n && forall i :: 0 <= i < n ==> Negates(r, i)
  }

  lemma AllInvariantAppend(a: seq<Vector4>, b: seq<Vector4>)
    requires AllInvariant(a) && |b| == 2 && InvariantOffset(b[0]) && InvariantOffset(b[1])
    ensures AllInvariant(a + b)
  {
    var r := a + b;
    forall k | 0 <= k < |r| ensures InvariantOffset(r[k]) {
      if k < |a| { assert r[k] == a[k]; } else { assert r[k] == b[k - |a|]; }
    }
  }

  lemma NegatedAppend(a: seq<Vector4>, n: nat, b: seq<Vector4>)
    requires NegatedPairs(a, n) && |b| == 2 && b[1] == Negated(b[0])
    ensures NegatedPairs(a + b, n + 1)
  {
    var r := a + b;
    forall i | 0 <= i < n + 1 ensures Negates(r, i) {
      if i < n {
        assert Negates(a, i);
        assert r[2 * i] == a[2 * i] && r[2 * i + 1] == a[2 * i + 1];
      } else {
        assert r[2 * i] == b[0] && r[2 * i + 1] == b[1];
      }
    }
  }

  /** The offsets of kept values are invariant offsets. */
  lemma {:induction false} OffsetsOfInvariant(ids: seq<nat>)
    requires forall i :: 0 <= i < |ids| ==> ids[i] < 16 && Invariant(ids[i])
    ensures AllInvariant(OffsetsOf(ids))
  {
    if |ids| > 0 {
      var pre := ids[..|ids| - 1];
      OffsetsOfInvariant(pre);
      OffsetPairShape(ids[|ids| - 1]);
      AllInvariantAppend(OffsetsOf(pre), OffsetPair(ids[|ids| - 1]));
    }
  }

  /** The offsets of kept values come in pairs, the second of each the first negated. */
  lemma {:induction false} OffsetsOfNegated(ids: seq<nat>)
    requires forall i :: 0 <= i < |ids| ==> ids[i] < 16 && Invariant(ids[i])
    ensures NegatedPairs(OffsetsOf(ids), |ids|)
  {
    if |ids| > 0 {
      var pre := ids[..|ids| - 1];
      OffsetsOfNegated(pre);
      OffsetPairShape(ids[|ids| - 1]);
      NegatedAppend(OffsetsOf(pre), |pre|, OffsetPair(ids[|ids| - 1]));
    }
  }

  /** `createInvariantPoints` yields six offsets, each with w = 0, unit coordinates and x + y + z = 0. */
  lemma InvariantOffsetsInvariant()
    ensures |InvariantOffsets()| == 6
    ensures AllInvariant(InvariantOffsets())
  {
    InvariantValuesValue();
    OffsetsOfInvariant(InvariantValues(Ascending(16)));
  }

  /** The six offsets come as three pairs, each a point and its mirror through the origin. */
  lemma InvariantOffsetsNegated()
    ensures NegatedPairs(InvariantOffsets(), 3)
  {
    InvariantValuesValue();
    OffsetsOfNegated(InvariantValues(Ascending(16)));
  }

  // ---------------------------------------------------------------- createMultiCube, createMultiTesseract

  /** -1 when the axis bit is clear, 0 when it is set. */
  function Low(v: nat, axis: nat): real
    requires axis < 4
  {
    if AxisSet(v, axis) then 0.0 else -1.0
  }

  /** `createMultiCube`: for `id < 8` the value `id << 1`, whose X, Y and Z bits pick -1 or 0. */
  function MultiCubeOffsets(): (r: seq<Vector4>)
    ensures |r| == 8
  {
    seq(8, id requires 0 <= id < 8 => var v := id * 2; Vector4(Low(v, 0), Low(v, 1), Low(v, 2), 0.0))
  }

  /** `createMultiTesseract`: for `id < 16`, each of the four bits picks -1 or 0. */
  function MultiTesseractOffsets(): (r: seq<Vector4>)
    ensures |r| == 16
  {
    seq(16, id requires 0 <= id < 16 => Vector4(Low(id, 0), Low(id, 1), Low(id, 2), Low(id, 3)))
  }

  predicate GridCoord(c: real)
  {
    c == -1.0 || c == 0.0
  }

  lemma EvenLowBit(id: nat)
    ensures !Bit(id * 2, 0)
  {
  }

  lemma HalfBit(id: nat, j: nat)
    ensures Bit(id * 2, j + 1) == Bit(id, j)
  {
    assert (id * 2) / 2 == id;
  }

  /** The eight cube offsets have x, y, z in {-1, 0}, w = 0, and are pairwise distinct. */
  lemma MultiCubeShape()
    ensures var r := MultiCubeOffsets();
      (forall k :: 0 <= k < 8 ==> GridCoord(r[k].x) && GridCoord(r[k].y) && GridCoord(r[k].z) && r[k].w == 0.0) &&
      forall i, j :: 0 <= i < j < 8 ==> r[i] != r[j]
  {
    var r := MultiCubeOffsets();
    forall i, j | 0 <= i < j < 8 ensures r[i] != r[j] {
      if r[i] == r[j] {
        forall b | 0 <= b < 3 ensures Bit(i, b) == Bit(j, b) {
          HalfBit(i, b);
          HalfBit(j, b);
          assert Low(i * 2, 2 - b) == Low(j * 2, 2 - b);
        }
        assert Pow2(3) == 8;
        BitsDetermine(i, j, 3);
        assert false;
      }
    }
  }

  /** The sixteen tesseract offsets have every coordinate in {-1, 0} and are pairwise distinct. */
  lemma MultiTesseractShape()
    ensures var r := MultiTesseractOffsets();
      (forall k :: 0 <= k < 16 ==> GridCoord(r[k].x) && GridCoord(r[k].y) && GridCoord(r[k].z) && GridCoord(r[k].w)) &&
      forall i, j :: 0 <= i < j < 16 ==> r[i] != r[j]
  {
    var r := MultiTesseractOffsets();
    forall i, j | 0 <= i < j < 16 ensures r[i] != r[j] {
      if r[i] == r[j] {
        forall b | 0 <= b < 4 ensures Bit(i, b) == Bit(j, b) {
          assert Low(i, 3 - b) == Low(j, 3 - b);
        }
        assert Pow2(4) == 16;
        BitsDetermine(i, j, 4);
        assert false;
      }
    }
  }

  // ---------------------------------------------------------------- the catalog

  /** What an entry holds: one shape, or an array of shapes. */
  datatype Held = Single(shape: GeometricShape) | Many(shapes: seq<GeometricShape>)

  class PredefinedObject {
    const name: string
    /** `type`: "normal", "center" or "multiStructure". */
    const kind: string
    /** `object`. */
    const held: Held
    const description: string
    var toDraw: bool
    var isDraw: bool

    constructor (name: string, kind: string, held: Held, description: string, toDraw: bool)
      ensures this.name == name && this.kind == kind && this.held == held && this.description == description
      ensures this.toDraw == toDraw && !isDraw
    {
      this.name := name;
      this.kind := kind;
      this.held := held;
      this.description := description;
      this.toDraw := toDraw;
      isDraw := false;
    }
  }

  /** `find` by name: the position of the first entry with that name, or -1. */
  function FirstNamed(list: seq<PredefinedObject>, name: string): (i: int)
    ensures -1 <= i < |list|
    ensures i == -1 <==> forall j :: 0 <= j < |list| ==> list[j].name != name
    ensures i >= 0 ==> list[i].name == name && forall j :: 0 <= j < i ==> list[j].name != name
  {
    if |list| == 0 then -1
    else if list[0].name == name then 0
    else
      var r := FirstNamed(list[1..], name);
      assert forall j :: 1 <= j < |list| ==> list[j] == list[1..][j - 1];
      if r == -1 then -1 else r + 1
  }

  class PredefinedObjectsList {
    var list: seq<PredefinedObject>

    constructor ()
      ensures list == []
    {
      list := [];
    }

    /** `add`: appends at the end. */
    method Add(predefinedObject: PredefinedObject)
      modifies this
      ensures list == old(list) + [predefinedObject]
    {
      list := list + [predefinedObject];
    }

    /** `getPredefinedObject`: the first entry with the name, or `undefined`. */
    function GetPredefinedObject(name: string): (r: Option<PredefinedObject>)
      reads this
      ensures r.Some? ==> r.value in list && r.value.name == name
      ensures r.None? <==> forall j :: 0 <= j < |list| ==> list[j].name != name
      ensures r.Some? ==> exists i :: 0 <= i < |list| && list[i] == r.value && forall j :: 0 <= j < i ==> list[j].name != name
    {
      var i := FirstNamed(list, name);
      if i == -1 then None else Some(list[i])
    }

    /**
     * `setDraw`: sets `toDraw` on the first entry with the name; no other entry and no
     * `isDraw` flag changes. With no such entry the source throws, which is `Err(UnknownName)`.
     */
    method SetDraw(name: string, toDraw: bool) returns (r: Result<(), Error>)
      modifies list
      ensures r.Ok? <==> GetPredefinedObject(name).Some?
      ensures r.Ok? ==> GetPredefinedObject(name).value.toDraw == toDraw
      ensures r.Err? ==> r.error == UnknownName
      ensures forall j :: 0 <= j < |list| && (r.Err? || list[j] != GetPredefinedObject(name).value) ==>
        list[j].toDraw == old(list[j].toDraw)
      ensures forall j :: 0 <= j < |list| ==> list[j].isDraw == old(list[j].isDraw)
    {
      var i := FirstNamed(list, name);
      if i == -1 {
        return Err(UnknownName);
      }
      list[i].toDraw := toDraw;
      r := Ok(());
    }
  }
}
