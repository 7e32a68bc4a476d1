/**
 * The six rotation planes of 4D space, the symbolic 16-entry template of each plane's rotation,
 * the per-plane "active" flags, and the composite rotation: the identity multiplied by the
 * active planes' matrices in plane-name order.
 */
module RotationMatrices {
  import opened Bits
  import opened Sequences
  import opened Matrices
  import opened UnitPoints
  import opened JsStrings

  /** `AxisMask`: axis `i` is named by character `i`. */
  const AxisMask: seq<char> := ['X', 'Y', 'Z', 'W']

  /** `AxisMask[i]` as a string; out of range JavaScript yields `undefined`, which concatenates as "undefined". */
  function AxisName(i: int): string
  {
    if 0 <= i < 4 then [AxisMask[i]] else "undefined"
  }

  // ---------------------------------------------------------------- createPlaneName

  /** `new Array(n).fill(0).map((_, id) => id).reverse()`: n - 1 down to 0. */
  function Descending(n: nat): (r: seq<nat>)
  {
    seq(n, i requires 0 <= i < n => n - 1 - i)
  }

  /** The `filter` keeping the values with exactly two of the bits 1, 2, 4, 8 set. */
  function TwoBitValues(ids: seq<nat>): (r: seq<nat>)
    ensures forall i :: 0 <= i < |r| ==> BitsSum(r[i]) == 2
  {
    if |ids| == 0 then []
    else (if BitsSum(ids[0]) == 2 then [ids[0]] else []) + TwoBitValues(ids[1..])
  }

  /** The map step: the axes of the first two '1' digits of the 4-digit binary form. */
  function PlaneOf(id: nat): string
  {
    var binary := Binary4(id);
    var firstIndex := IndexFrom(binary, '1', 0);
    var secondIndex := IndexFrom(binary, '1', firstIndex + 1);
    AxisName(firstIndex) + AxisName(secondIndex)
  }

  /** The map step over all values. */
  function PlaneNamesOf(ids: seq<nat>): seq<string>
  {
    seq(|ids|, i requires 0 <= i < |ids| => PlaneOf(ids[i]))
  }

  /** `createPlaneName`. */
  function PlaneNames(): seq<string>
  {
    PlaneNamesOf(TwoBitValues(Descending(16)))
  }

  /** The values below `n` with two bits set, from the largest down. */
  function TwoBitBelow(n: nat): seq<nat>
  {
    if n == 0 then [] else (if BitsSum(n - 1) == 2 then [n - 1] else []) + TwoBitBelow(n - 1)
  }

  lemma {:induction false} TwoBitBelowSpec(n: nat)
    ensures TwoBitValues(Descending(n)) == TwoBitBelow(n)
  {
    if n > 0 {
      assert Descending(n)[1..] == Descending(n - 1);
      TwoBitBelowSpec(n - 1);
    }
  }

  lemma TwoBitBelow4() ensures TwoBitBelow(4) == [3] {}
  lemma TwoBitBelow8() ensures TwoBitBelow(8) == [6, 5, 3] { TwoBitBelow4(); }
  lemma TwoBitBelow12() ensures TwoBitBelow(12) == [10, 9, 6, 5, 3] { TwoBitBelow8(); }
  lemma TwoBitBelow16() ensures TwoBitBelow(16) == [12, 10, 9, 6, 5, 3] { TwoBitBelow12(); }

  lemma PlaneOf12() ensures PlaneOf(12) == "XY" { assert Binary4(12) == "1100"; }
  lemma PlaneOf10() ensures PlaneOf(10) == "XZ" { assert Binary4(10) == "1010"; }
  lemma PlaneOf9() ensures PlaneOf(9) == "XW" { assert Binary4(9) == "1001"; }
  lemma PlaneOf6() ensures PlaneOf(6) == "YZ" { assert Binary4(6) == "0110"; }
  lemma PlaneOf5() ensures PlaneOf(5) == "YW" { assert Binary4(5) == "0101"; }
  lemma PlaneOf3() ensures PlaneOf(3) == "ZW" { assert Binary4(3) == "0011"; }

  lemma PlaneNamesOfPairs(ids: seq<nat>)
    requires |ids| == 6 && ids[0] == 12 && ids[1] == 10 && ids[2] == 9 && ids[3] == 6 && ids[4] == 5 && ids[5] == 3
    ensures PlaneNamesOf(ids) == ["XY", "XZ", "XW", "YZ", "YW", "ZW"]
  {
    PlaneOf12(); PlaneOf10(); PlaneOf9(); PlaneOf6(); PlaneOf5(); PlaneOf3();
  }

  /** `createPlaneName` yields XY, XZ, XW, YZ, YW, ZW, in that order. */
  lemma PlaneNamesValue()
    ensures PlaneNames() == PlaneList
  {
    TwoBitBelowSpec(16);
    TwoBitBelow16();
    PlaneNamesOfPairs(TwoBitValues(Descending(16)));
  }

  /** The `RotationPlane` names, in the order `createPlaneName` yields them. */
  const PlaneList: seq<string> := ["XY", "XZ", "XW", "YZ", "YW", "ZW"]

  /** The six plane names are pairwise distinct. */
  lemma PlaneListDistinct()
    ensures |PlaneList| == 6 && NoDup(PlaneList)
  {
    forall i, j | 0 <= i < j < 6 ensures PlaneList[i] != PlaneList[j] {
      assert PlaneList[i][0] != PlaneList[j][0] || PlaneList[i][1] != PlaneList[j][1];
    }
  }

  // ---------------------------------------------------------------- createPreMAtrix

  /** The entry at row `firstPos`, column `secondPos` of the template for axes `fi` and `si`. */
  function TemplateEntry(fi: int, si: int, firstPos: int, secondPos: int): Entry
  {
    if (firstPos == fi || firstPos == si) && (secondPos == fi || secondPos == si) then
      if (fi == firstPos && fi == secondPos) || (si == firstPos && si == secondPos) then Cos
      else if fi == firstPos && si == secondPos then Sin
      else NegSin
    else if firstPos == secondPos then One
    else Zero
  }

  /** The 16 entries, entry `id` at `firstPos = id % 4`, `secondPos = id / 4`. */
  function Template(fi: int, si: int): (t: seq<Entry>)
    ensures |t| == 16
  {
    seq(16, id requires 0 <= id < 16 => TemplateEntry(fi, si, id % 4, id / 4))
  }

  /** The axis index of character `i` of a plane name, -1 when absent. */
  function AxisIndex(plane: string, i: nat): int
  {
    if i < |plane| then IndexOf(AxisMask, plane[i]) else -1
  }

  /** `createPreMAtrix` for a plane name. */
  function PreMatrix(plane: string): seq<Entry>
  {
    Template(AxisIndex(plane, 0), AxisIndex(plane, 1))
  }

  /**
   * For two different axes the template holds cos on both axes' diagonal places, sin at
   * (fi, si), -sin at (si, fi), 1 on the other diagonal places and 0 everywhere else.
   */
  lemma TemplatePlaces(fi: nat, si: nat)
    requires fi < si < 4
    ensures var t := Template(fi, si);
      t[fi + 4 * fi] == Cos && t[si + 4 * si] == Cos && t[fi + 4 * si] == Sin && t[si + 4 * fi] == NegSin &&
      forall id :: 0 <= id < 16 && id != fi + 4 * fi && id != si + 4 * si && id != fi + 4 * si && id != si + 4 * fi ==>
        t[id] == if id % 4 == id / 4 then One else Zero
  {
  }

  /** At an angle whose sine is 0 and cosine 1, every template (for any axes) is the identity. */
  lemma TemplateAtZero(fi: int, si: int, angle: real, sin: real -> real, cos: real -> real)
    requires sin(angle) == 0.0 && cos(angle) == 1.0
    ensures Eval(Substituted(Template(fi, si), angle), sin, cos) == IdentityEntries()
  {
  }

  // ---------------------------------------------------------------- the composite

  /** The identity multiplied in turn by each named plane's matrix for `angle`. */
  function Composite(names: seq<string>, angle: real): Matrix4
  {
    if |names| == 0 then Identity
    else Times(Composite(names[..|names| - 1], angle), Substituted(PreMatrix(names[|names| - 1]), angle))
  }

  /** At an angle whose sine is 0 and cosine 1, every composite evaluates to the identity. */
  lemma {:induction false} CompositeAtZero(names: seq<string>, angle: real, sin: real -> real, cos: real -> real)
    requires sin(angle) == 0.0 && cos(angle) == 1.0
    ensures Eval(Composite(names, angle), sin, cos) == IdentityEntries()
  {
    if |names| > 0 {
      var last := names[|names| - 1];
      CompositeAtZero(names[..|names| - 1], angle, sin, cos);
      TemplateAtZero(AxisIndex(last, 0), AxisIndex(last, 1), angle, sin, cos);
      MulIdentityLeft(IdentityEntries());
    }
  }

  lemma CompositeStep(names: seq<string>, name: string, angle: real)
    ensures Composite(names + [name], angle) == Times(Composite(names, angle), Substituted(PreMatrix(name), angle))
  {
    assert (names + [name])[..|names|] == names;
  }

  /** A composite of one plane evaluates to that plane's matrix. */
  lemma CompositeOfOne(name: string, angle: real, sin: real -> real, cos: real -> real)
    ensures Eval(Composite([name], angle), sin, cos) == Eval(Substituted(PreMatrix(name), angle), sin, cos)
  {
    assert [name][..0] == [];
    CopyEvaluatesAlike(Substituted(PreMatrix(name), angle), sin, cos);
  }

  // ---------------------------------------------------------------- the classes

  class RotationMatrix {
    const plane: string
    /** `_preMatrix`. */
    const preMatrix: seq<Entry>
    /** `_doActive`, read and written through the `doActive` accessors. */
    var doActive: bool

    constructor (plane: string)
      ensures this.plane == plane && preMatrix == PreMatrix(plane) && !doActive
    {
      this.plane := plane;
      preMatrix := PreMatrix(plane);
      doActive := false;
    }

    /** `getMatrix(angle)`: the template with sin, cos and -sin of `angle` filled in. */
    function GetMatrix(angle: real): Matrix4
    {
      Substituted(preMatrix, angle)
    }
  }

  /** The axis indices of each of the six plane names: the first axis comes before the second. */
  lemma PlaneAxes(plane: string)
    requires plane in PlaneList
    ensures 0 <= AxisIndex(plane, 0) < AxisIndex(plane, 1) < 4
  {
    assert IndexOf(AxisMask, 'X') == 0 && IndexOf(AxisMask, 'Y') == 1;
    assert IndexOf(AxisMask, 'Z') == 2 && IndexOf(AxisMask, 'W') == 3;
  }

  /** The template for axes fi < si, filled in and evaluated. */
  lemma TemplateEval(fi: nat, si: nat, angle: real, sin: real -> real, cos: real -> real)
    requires fi < si < 4
    ensures var e := Eval(Substituted(Template(fi, si), angle), sin, cos);
      e[fi + 4 * fi] == cos(angle) && e[si + 4 * si] == cos(angle) &&
      e[fi + 4 * si] == sin(angle) && e[si + 4 * fi] == -sin(angle) &&
      forall id :: 0 <= id < 16 && id != fi + 4 * fi && id != si + 4 * si && id != fi + 4 * si && id != si + 4 * fi ==>
        e[id] == IdentityEntries()[id]
  {
    TemplatePlaces(fi, si);
  }

  /**
   * The matrix of a plane, for axes fi < si: cos at (fi, fi) and (si, si), sin at row fi,
   * column si, -sin at row si, column fi, and the identity's entries everywhere else.
   */
  lemma PlaneMatrix(r: RotationMatrix, angle: real, sin: real -> real, cos: real -> real)
    requires r.plane in PlaneList && r.preMatrix == PreMatrix(r.plane)
    ensures var fi, si := AxisIndex(r.plane, 0), AxisIndex(r.plane, 1);
      var e := Eval(r.GetMatrix(angle), sin, cos);
      0 <= fi < si < 4 &&
      e[fi + 4 * fi] == cos(angle) && e[si + 4 * si] == cos(angle) &&
      e[fi + 4 * si] == sin(angle) && e[si + 4 * fi] == -sin(angle) &&
      forall id :: 0 <= id < 16 && id != fi + 4 * fi && id != si + 4 * si && id != fi + 4 * si && id != si + 4 * fi ==>
        e[id] == IdentityEntries()[id]
  {
    PlaneAxes(r.plane);
    TemplateEval(AxisIndex(r.plane, 0), AxisIndex(r.plane, 1), angle, sin, cos);
  }

  class RotationMatrixs {
    const planeNames: seq<string>
    const planes: map<string, RotationMatrix>

    /** Each name has its own matrix, built for that name. */
    ghost predicate Linked()
    {
      (forall i :: 0 <= i < |planeNames| ==> planeNames[i] in planes) &&
      (forall n :: n in planes ==> n in planeNames) &&
      (forall n :: n in planes ==> planes[n].plane == n && planes[n].preMatrix == PreMatrix(n)) &&
      forall a, b :: a in planes && b in planes && a != b ==> planes[a] != planes[b]
    }

    /** The names are the six plane names, each linked to its own matrix. */
    ghost predicate Valid()
    {
      planeNames == PlaneList && Linked()
    }

    /** The `reduce` that builds one inactive matrix per plane name. */
    constructor ()
      ensures Valid()
      ensures forall n :: n in planes ==> fresh(planes[n]) && !planes[n].doActive
    {
      var names := CreatePlaneName();
      var built := BuildPlanes(names);
      planeNames := names;
      planes := built;
    }

    /** The loop of the `reduce`: one new inactive matrix per name. */
    static method BuildPlanes(names: seq<string>) returns (built: map<string, RotationMatrix>)
      ensures forall n :: n in built <==> n in names
      ensures forall n :: n in built ==> built[n].plane == n && built[n].preMatrix == PreMatrix(n)
      ensures forall n :: n in built ==> fresh(built[n]) && !built[n].doActive
      ensures forall a, b :: a in built && b in built && a != b ==> built[a] != built[b]
    {
      built := map[];
      for i := 0 to |names|
        invariant forall n :: n in built <==> n in names[..i]
        invariant forall n :: n in built ==> built[n].plane == n && built[n].preMatrix == PreMatrix(n)
        invariant forall n :: n in built ==> fresh(built[n]) && !built[n].doActive
      {
        var r := new RotationMatrix(names[i]);
        assert names[..i + 1] == names[..i] + [names[i]];
        built := built[names[i] := r];
      }
      assert names[..|names|] == names;
    }

    /** `createPlaneName`. */
    static method CreatePlaneName() returns (names: seq<string>)
      ensures names == PlaneList
    {
      names := PlaneNames();
      PlaneNamesValue();
    }

    /** `setRotation(name, value)`: only the named plane's flag changes. */
    method SetRotation(name: string, value: bool)
      requires Linked() && name in planes
      modifies planes[name]
      ensures planes[name].doActive == value
      ensures forall n :: n in planes && n != name ==> planes[n].doActive == old(planes[n].doActive)
    {
      planes[name].doActive := value;
    }

    /** The active planes among `names`, in order. */
    ghost function ActiveAmong(names: seq<string>): (r: seq<string>)
      requires forall i :: 0 <= i < |names| ==> names[i] in planes
      reads planes.Values
      ensures forall n :: n in r <==> n in names && planes[n].doActive
    {
      if |names| == 0 then []
      else
        var last := names[|names| - 1];
        ActiveAmong(names[..|names| - 1]) + (if planes[last].doActive then [last] else [])
    }

    lemma ActiveStep(names: seq<string>, i: nat)
      requires i < |names| && forall k :: 0 <= k < |names| ==> names[k] in planes
      ensures ActiveAmong(names[..i + 1]) ==
        ActiveAmong(names[..i]) + (if planes[names[i]].doActive then [names[i]] else [])
    {
      assert names[..i + 1][..i] == names[..i];
    }

    /** `getFullRotationMatrix(angle)`: the identity multiplied by each active plane's matrix, in plane-name order. */
    method GetFullRotationMatrix(angle: real) returns (matrix: Matrix4)
      requires Linked()
      ensures matrix == Composite(ActiveAmong(planeNames), angle)
    {
      matrix := Identity;
      for i := 0 to |planeNames|
        invariant matrix == Composite(ActiveAmong(planeNames[..i]), angle)
      {
        var name := planeNames[i];
        ActiveStep(planeNames, i);
        if planes[name].doActive {
          CompositeStep(ActiveAmong(planeNames[..i]), name, angle);
          assert planes[name].preMatrix == PreMatrix(name);
          matrix := Times(matrix, planes[name].GetMatrix(angle));
        } else {
          assert ActiveAmong(planeNames[..i + 1]) == ActiveAmong(planeNames[..i]);
        }
      }
      assert planeNames[..|planeNames|] == planeNames;
    }
  }

  /** With no plane active the composite is the identity itself. */
  lemma {:induction false} NoneActive(r: RotationMatrixs, names: seq<string>, angle: real)
    requires forall i :: 0 <= i < |names| ==> names[i] in r.planes && !r.planes[names[i]].doActive
    ensures r.ActiveAmong(names) == [] && Composite(r.ActiveAmong(names), angle) == Identity
  {
    if |names| > 0 {
      NoneActive(r, names[..|names| - 1], angle);
    }
  }
}
