/**
 * The controller service: the catalog's names, the names grouped by type, the drawing flags, the
 * rotation plane names, and switching a plane, which hands the new composite transform to every
 * shape of the catalog.
 */
module Controllers {
  import opened Wrappers
  import opened Sequences
  import opened OrderedMaps
  import opened Matrices
  import opened UnitPoints
  import opened GeometricShapes
  import opened RotationMatrices
  import opened PredefinedObjects

  // ---------------------------------------------------------------- names

  /** `list.map(object => object.name)`. */
  function Names(list: seq<PredefinedObject>): (r: seq<string>)
    ensures |r| == |list|
  {
    seq(|list|, i requires 0 <= i < |list| => list[i].name)
  }

  /** A name is listed exactly when the lookup by name finds an entry, and entry `i` lists its own name. */
  lemma NamesFound(list: seq<PredefinedObject>, name: string)
    ensures forall i :: 0 <= i < |list| ==> Names(list)[i] == list[i].name
    ensures name in Names(list) <==> FirstNamed(list, name) >= 0
  {
    var names := Names(list);
    var f := FirstNamed(list, name);
    if f >= 0 {
      assert names[f] == name;
    }
    if name in names {
      var j :| 0 <= j < |names| && names[j] == name;
      assert list[j].name == name;
    }
  }

  // ---------------------------------------------------------------- grouping by type

  /** The names of the entries of kind `k`, in list order. */
  function NamesOfKind(list: seq<PredefinedObject>, k: string): seq<string>
  {
    if |list| == 0 then []
    else
      var last := list[|list| - 1];
      NamesOfKind(list[..|list| - 1], k) + (if last.kind == k then [last.name] else [])
  }

  /** The kinds of the entries, each once, in order of first occurrence. */
  function Kinds(list: seq<PredefinedObject>): seq<string>
  {
    if |list| == 0 then []
    else
      var pre := Kinds(list[..|list| - 1]);
      var k := list[|list| - 1].kind;
      if k in pre then pre else pre + [k]
  }

  /** The position of the first entry of kind `k`, or -1. */
  function FirstOfKind(list: seq<PredefinedObject>, k: string): (f: int)
    ensures -1 <= f < |list|
    ensures f == -1 <==> forall j :: 0 <= j < |list| ==> list[j].kind != k
    ensures f >= 0 ==> list[f].kind == k && forall j :: 0 <= j < f ==> list[j].kind != k
  {
    if |list| == 0 then -1
    else
      var pre := list[..|list| - 1];
      var f := FirstOfKind(pre, k);
      assert forall j :: 0 <= j < |pre| ==> pre[j] == list[j];
      if f >= 0 then f else if list[|list| - 1].kind == k then |list| - 1 else -1
  }

  /** One step of the `reduce`: a new type gets `[name]`, a known type has the name pushed onto its list. */
  function GroupStep(acc: OMap<string, seq<string>>, o: PredefinedObject): (r: OMap<string, seq<string>>)
    requires acc.Valid()
    ensures r.Valid()
  {
    if o.kind !in acc.entries then acc.Set(o.kind, [o.name])
    else acc.Set(o.kind, acc.entries[o.kind] + [o.name])
  }

  /** The `reduce` over the list, starting from an empty `Map`. */
  function Group(list: seq<PredefinedObject>): (m: OMap<string, seq<string>>)
    ensures m.Valid()
  {
    if |list| == 0 then Empty() else GroupStep(Group(list[..|list| - 1]), list[|list| - 1])
  }

  /** The grouping's keys are the kinds in order of first occurrence, and each holds its kind's names in list order. */
  lemma {:induction false} GroupSpec(list: seq<PredefinedObject>)
    ensures Group(list).keys == Kinds(list)
    ensures forall k :: k in Group(list).entries ==> Group(list).entries[k] == NamesOfKind(list, k)
    ensures forall k :: k !in Group(list).entries ==> NamesOfKind(list, k) == []
  {
    if |list| > 0 {
      var pre := list[..|list| - 1];
      var o := list[|list| - 1];
      GroupSpec(pre);
      KeysInEntries(Group(pre), o.kind);
    }
  }

  /** A kind is listed exactly when some entry has it. */
  lemma {:induction false} KindsSpec(list: seq<PredefinedObject>, k: string)
    ensures k in Kinds(list) <==> exists i :: 0 <= i < |list| && list[i].kind == k
  {
    if |list| > 0 {
      var pre := list[..|list| - 1];
      KindsSpec(pre, k);
      if exists i :: 0 <= i < |list| && list[i].kind == k {
        var i :| 0 <= i < |list| && list[i].kind == k;
        if i < |pre| {
          assert pre[i] == list[i];
        }
      }
      if exists i :: 0 <= i < |pre| && pre[i].kind == k {
        var i :| 0 <= i < |pre| && pre[i].kind == k;
        assert list[i] == pre[i];
      }
    }
  }

  /** A kind already seen before the last entry keeps its first position. */
  lemma FirstOfKindPrefix(list: seq<PredefinedObject>, k: string)
    requires |list| > 0 && k in Kinds(list[..|list| - 1])
    ensures 0 <= FirstOfKind(list, k) == FirstOfKind(list[..|list| - 1], k) < |list| - 1
  {
    KindsSpec(list[..|list| - 1], k);
  }

  /** The kinds are listed in the order of their first entries. */
  lemma {:induction false} KindsOrder(list: seq<PredefinedObject>, a: int, b: int)
    requires 0 <= a < b < |Kinds(list)|
    ensures 0 <= FirstOfKind(list, Kinds(list)[a]) < FirstOfKind(list, Kinds(list)[b])
  {
    var pre := list[..|list| - 1];
    var o := list[|list| - 1];
    var ks := Kinds(list);
    var kp := Kinds(pre);
    assert ks[a] == kp[a];
    FirstOfKindPrefix(list, kp[a]);
    if b < |kp| {
      assert ks[b] == kp[b];
      FirstOfKindPrefix(list, kp[b]);
      KindsOrder(pre, a, b);
    } else {
      assert ks[b] == o.kind && o.kind !in kp;
      KindsSpec(pre, o.kind);
      assert FirstOfKind(pre, o.kind) == -1;
    }
  }

  /** A name is listed under kind `k` exactly when an entry of kind `k` has it. */
  lemma {:induction false} NamesOfKindSpec(list: seq<PredefinedObject>, k: string, n: string)
    ensures n in NamesOfKind(list, k) <==> exists i :: 0 <= i < |list| && list[i].kind == k && list[i].name == n
  {
    if |list| > 0 {
      var pre := list[..|list| - 1];
      NamesOfKindSpec(pre, k, n);
      if exists i :: 0 <= i < |list| && list[i].kind == k && list[i].name == n {
        var i :| 0 <= i < |list| && list[i].kind == k && list[i].name == n;
        if i < |pre| {
          assert pre[i] == list[i];
        }
      }
      if exists i :: 0 <= i < |pre| && pre[i].kind == k && pre[i].name == n {
        var i :| 0 <= i < |pre| && pre[i].kind == k && pre[i].name == n;
        assert list[i] == pre[i];
      }
    }
  }

  /** With distinct catalog names, no name is listed twice under one kind. */
  lemma {:induction false} NamesOfKindDistinct(list: seq<PredefinedObject>, k: string)
    requires NoDup(Names(list))
    ensures NoDup(NamesOfKind(list, k))
  {
    if |list| > 0 {
      var pre := list[..|list| - 1];
      var o := list[|list| - 1];
      assert NoDup(Names(pre)) by {
        forall i, j | 0 <= i < j < |pre| ensures Names(pre)[i] != Names(pre)[j] {
          assert Names(pre)[i] == Names(list)[i] && Names(pre)[j] == Names(list)[j];
        }
      }
      NamesOfKindDistinct(pre, k);
      if o.kind == k {
        forall i | 0 <= i < |pre| ensures pre[i].name != o.name {
          assert Names(list)[i] == pre[i].name && Names(list)[|list| - 1] == o.name;
        }
        NamesOfKindSpec(pre, k, o.name);
        var s := NamesOfKind(pre, k);
        var t := s + [o.name];
        forall i, j | 0 <= i < j < |t| ensures t[i] != t[j] {
          if j == |s| {
            assert t[i] == s[i];
          } else {
            assert t[i] == s[i] && t[j] == s[j];
          }
        }
      }
    }
  }

  /**
   * With distinct catalog names, every entry's name is listed exactly once in the grouping:
   * under its own type, once there, and under no other type.
   */
  lemma GroupListsEachNameOnce(list: seq<PredefinedObject>, i: nat)
    requires NoDup(Names(list)) && i < |list|
    ensures var m := Group(list);
      list[i].kind in m.entries && list[i].name in m.entries[list[i].kind] &&
      NoDup(m.entries[list[i].kind]) &&
      forall k :: k in m.entries && k != list[i].kind ==> list[i].name !in m.entries[k]
  {
    var m := Group(list);
    var o := list[i];
    OwnKind(list, i);
    GroupAt(list, o.kind);
    NamesOfKindDistinct(list, o.kind);
    forall k | k in m.entries && k != o.kind ensures o.name !in m.entries[k] {
      GroupAt(list, k);
      NotUnderOtherKind(list, i, k);
    }
  }

  /** Entry `i`'s name is among the names of its own kind. */
  lemma {:induction false} OwnKind(list: seq<PredefinedObject>, i: nat)
    requires i < |list|
    ensures list[i].name in NamesOfKind(list, list[i].kind)
  {
    var pre := list[..|list| - 1];
    if i < |pre| {
      assert pre[i] == list[i];
      OwnKind(pre, i);
    }
  }

  /** `GroupSpec` at one kind. */
  lemma GroupAt(list: seq<PredefinedObject>, k: string)
    ensures k in Group(list).entries ==> Group(list).entries[k] == NamesOfKind(list, k)
    ensures k !in Group(list).entries ==> NamesOfKind(list, k) == []
  {
    GroupSpec(list);
  }

  lemma NotUnderOtherKind(list: seq<PredefinedObject>, i: nat, k: string)
    requires NoDup(Names(list)) && i < |list| && k != list[i].kind
    ensures list[i].name !in NamesOfKind(list, k)
  {
    forall j | 0 <= j < |list| && list[j].kind == k ensures list[j].name != list[i].name {
      assert Names(list)[i] == list[i].name && Names(list)[j] == list[j].name;
    }
    NamesOfKindSpec(list, k, list[i].name);
  }

  // ---------------------------------------------------------------- the shapes of the catalog

  /** The shapes an entry holds: the one shape, or each shape of the array. */
  function ShapesOf(h: Held): (r: seq<GeometricShape>)
    ensures h.Single? ==> r == [h.shape]
    ensures h.Many? ==> r == h.shapes
  {
    match h
    case Single(s) => [s]
    case Many(ss) => ss
  }

  /** Every shape of the catalog, entry by entry. */
  function Shapes(list: seq<PredefinedObject>): seq<GeometricShape>
  {
    if |list| == 0 then [] else Shapes(list[..|list| - 1]) + ShapesOf(list[|list| - 1].held)
  }

  /** A shape is in the catalog exactly when some entry holds it. */
  lemma {:induction false} ShapesSpec(list: seq<PredefinedObject>, s: GeometricShape)
    ensures s in Shapes(list) <==> exists i :: 0 <= i < |list| && s in ShapesOf(list[i].held)
  {
    if |list| > 0 {
      var pre := list[..|list| - 1];
      ShapesSpec(pre, s);
      if exists i :: 0 <= i < |list| && s in ShapesOf(list[i].held) {
        var i :| 0 <= i < |list| && s in ShapesOf(list[i].held);
        if i < |pre| {
          assert pre[i] == list[i];
        }
      }
      if exists i :: 0 <= i < |pre| && s in ShapesOf(pre[i].held) {
        var i :| 0 <= i < |pre| && s in ShapesOf(pre[i].held);
        assert list[i] == pre[i];
      }
    }
  }

  lemma ShapesStep(list: seq<PredefinedObject>, i: nat)
    requires i < |list|
    ensures Shapes(list[..i + 1]) == Shapes(list[..i]) + ShapesOf(list[i].held)
  {
    assert list[..i + 1][..i] == list[..i];
  }

  /** The points of the given shapes. */
  ghost function PointsOf(shapes: seq<GeometricShape>): set<UnitPoint>
  {
    set t, j | 0 <= t < |shapes| && 0 <= j < |shapes[t].points| :: shapes[t].points[j]
  }

  /** Point `p` is back at its base vector with a copy of `m` as its transform. */
  ghost predicate Reset(p: UnitPoint, m: Matrix4)
    reads p
  {
    p.vector == Base(p.baseVector) && p.rotationMatrix == Times(Identity, m) && p.rotations == 0 && p.Valid()
  }

  /** Every point of every given shape is reset to `m`. */
  ghost predicate AllReset(shapes: seq<GeometricShape>, m: Matrix4)
    reads PointsOf(shapes)
  {
    forall t, j :: 0 <= t < |shapes| && 0 <= j < |shapes[t].points| ==> Reset(shapes[t].points[j], m)
  }

  /** Every shape of the catalog numbers its points from 0, as its constructor does. */
  ghost predicate AllNumbered(shapes: seq<GeometricShape>)
  {
    forall t :: 0 <= t < |shapes| ==> Numbered(shapes[t].points)
  }

  /**
   * `shape.setRotationMatrix(m)` on one more shape; a point shared with a shape already done is
   * reset to the same `m` again, so the shapes done stay reset.
   */
  method ResetShape(s: GeometricShape, m: Matrix4, ghost done: seq<GeometricShape>)
    requires Numbered(s.points) && AllReset(done, m)
    modifies s.points
    ensures AllReset(done + [s], m)
  {
    s.SetRotationMatrix(m);
    var all := done + [s];
    forall t, j | 0 <= t < |all| && 0 <= j < |all[t].points| ensures Reset(all[t].points[j], m) {
      var q := all[t].points[j];
      if q in s.points {
        var k :| 0 <= k < |s.points| && s.points[k] == q;
      } else {
        assert t < |done| && done[t] == all[t];
        assert old(Reset(q, m));
      }
    }
  }

  /** A point of one of the shapes is a point of the shapes. */
  lemma ShapePointsIn(shapes: seq<GeometricShape>, t: nat)
    requires t < |shapes|
    ensures forall q :: q in shapes[t].points ==> q in PointsOf(shapes)
  {
    forall q | q in shapes[t].points ensures q in PointsOf(shapes) {
      var j :| 0 <= j < |shapes[t].points| && shapes[t].points[j] == q;
    }
  }

  /** Shapes all found among other shapes have their points among the others' points. */
  lemma SubShapes(a: seq<GeometricShape>, b: seq<GeometricShape>)
    requires forall t :: 0 <= t < |a| ==> a[t] in b
    ensures PointsOf(a) <= PointsOf(b)
  {
    forall q | q in PointsOf(a) ensures q in PointsOf(b) {
      var t, j :| 0 <= t < |a| && 0 <= j < |a[t].points| && a[t].points[j] == q;
      var u :| 0 <= u < |b| && b[u] == a[t];
      assert b[u].points[j] == q;
    }
  }

  /** The shapes held by entry `i` are numbered, and their points are among the catalog's points. */
  lemma EntryShapes(list: seq<PredefinedObject>, i: nat)
    requires AllNumbered(Shapes(list)) && i < |list|
    ensures AllNumbered(ShapesOf(list[i].held))
    ensures PointsOf(ShapesOf(list[i].held)) <= PointsOf(Shapes(list))
  {
    var shapes := ShapesOf(list[i].held);
    var all := Shapes(list);
    forall t | 0 <= t < |shapes| ensures shapes[t] in all && Numbered(shapes[t].points) {
      ShapesSpec(list, shapes[t]);
      var u :| 0 <= u < |all| && all[u] == shapes[t];
    }
    SubShapes(shapes, all);
  }

  /** `shapes.forEach(shape => shape.setRotationMatrix(m))` over an entry's array. */
  method ResetShapes(ss: seq<GeometricShape>, m: Matrix4, ghost done: seq<GeometricShape>)
    requires AllNumbered(ss) && AllReset(done, m)
    modifies PointsOf(ss)
    ensures AllReset(done + ss, m)
  {
    for j := 0 to |ss|
      invariant AllReset(done + ss[..j], m)
    {
      ShapePointsIn(ss, j);
      ResetShape(ss[j], m, done + ss[..j]);
      assert done + ss[..j] + [ss[j]] == done + ss[..j + 1];
    }
    assert ss[..|ss|] == ss;
  }

  /** The `forEach` over the entries: every shape of every entry gets `m`, in list order. */
  method Broadcast(list: seq<PredefinedObject>, m: Matrix4)
    requires AllNumbered(Shapes(list))
    modifies PointsOf(Shapes(list))
    ensures AllReset(Shapes(list), m)
  {
    for i := 0 to |list|
      invariant AllReset(Shapes(list[..i]), m)
    {
      ShapesStep(list, i);
      EntryShapes(list, i);
      ghost var done := Shapes(list[..i]);
      match list[i].held
      case Single(s) =>
        assert ShapesOf(list[i].held) == [s];
        ShapePointsIn([s], 0);
        ResetShape(s, m, done);
      case Many(ss) =>
        ResetShapes(ss, m, done);
    }
    assert list[..|list|] == list;
  }

  // ---------------------------------------------------------------- the service

  class ControllerService {
    const predefinedObjectsList: PredefinedObjectsList
    const rotationMatrixs: RotationMatrixs

    /** The service holds the catalog it is given and a fresh composer with every plane off. */
    constructor (predefinedObjectsList: PredefinedObjectsList)
      ensures this.predefinedObjectsList == predefinedObjectsList
      ensures rotationMatrixs.Valid() && fresh(rotationMatrixs)
      ensures forall n :: n in rotationMatrixs.planes ==> !rotationMatrixs.planes[n].doActive
    {
      this.predefinedObjectsList := predefinedObjectsList;
      rotationMatrixs := new RotationMatrixs();
    }

    /** The composer is linked to its six planes, and all the catalog's shapes are numbered. */
    ghost predicate Valid()
      reads predefinedObjectsList
    {
      rotationMatrixs.Valid() && AllNumbered(Shapes(predefinedObjectsList.list))
    }

    /** `getPredefinedObjects_names`: the catalog's names in list order. */
    function GetPredefinedObjectsNames(): (r: seq<string>)
      reads predefinedObjectsList
      ensures |r| == |predefinedObjectsList.list|
      ensures forall i :: 0 <= i < |r| ==> r[i] == predefinedObjectsList.list[i].name
    {
      Names(predefinedObjectsList.list)
    }

    /** `getPredefinedObjects_NameTypeMap`: the names grouped by type, built by one pass over the list. */
    method GetPredefinedObjectsNameTypeMap() returns (m: OMap<string, seq<string>>)
      ensures m == Group(predefinedObjectsList.list)
      ensures m.Valid() && m.keys == Kinds(predefinedObjectsList.list)
      ensures forall k :: k in m.entries ==> m.entries[k] == NamesOfKind(predefinedObjectsList.list, k)
    {
      var list := predefinedObjectsList.list;
      m := Empty();
      for i := 0 to |list|
        invariant m == Group(list[..i])
      {
        assert list[..i + 1][..i] == list[..i];
        var o := list[i];
        if o.kind !in m.entries {
          m := m.Set(o.kind, [o.name]);
        } else {
          m := m.Set(o.kind, m.entries[o.kind] + [o.name]);
        }
      }
      assert list[..|list|] == list;
      GroupSpec(list);
    }

    /** `setDrawPredefinedObject`: only the named entry's `toDraw` changes; an unknown name is an error. */
    method SetDrawPredefinedObject(name: string, value: bool) returns (r: Result<(), Error>)
      modifies predefinedObjectsList.list
      ensures r.Ok? <==> name in GetPredefinedObjectsNames()
      ensures r.Ok? ==> predefinedObjectsList.GetPredefinedObject(name).value.toDraw == value
      ensures r.Err? ==> r.error == UnknownName
      ensures forall j ::
        (0 <= j < |predefinedObjectsList.list| &&
         (r.Err? || predefinedObjectsList.list[j] != predefinedObjectsList.GetPredefinedObject(name).value)) ==>
        predefinedObjectsList.list[j].toDraw == old(predefinedObjectsList.list[j].toDraw)
      ensures forall j :: 0 <= j < |predefinedObjectsList.list| ==>
        predefinedObjectsList.list[j].isDraw == old(predefinedObjectsList.list[j].isDraw)
    {
      r := predefinedObjectsList.SetDraw(name, value);
      NamesFound(predefinedObjectsList.list, name);
    }

    /** `getPredefinedObject`: the first entry with the name, found exactly when the name is listed. */
    function GetPredefinedObject(name: string): (r: Option<PredefinedObject>)
      reads predefinedObjectsList
      ensures r.Some? ==> r.value in predefinedObjectsList.list && r.value.name == name
      ensures r.None? <==> name !in GetPredefinedObjectsNames()
    {
      NamesFound(predefinedObjectsList.list, name);
      predefinedObjectsList.GetPredefinedObject(name)
    }

    /** `getRotationPlaneNames`: the six plane names, in the composer's order. */
    function GetRotationPlaneNames(): (r: seq<string>)
      requires rotationMatrixs.Valid()
      ensures r == PlaneList && |r| == 6 && NoDup(r)
    {
      PlaneListDistinct();
      rotationMatrixs.planeNames
    }

    /**
     * `setRotateRotationPlane`: sets the named plane's flag, composes the active planes for the
     * angle 0.01, and gives that transform to every shape of every entry, whether the entry holds
     * one shape or an array of them; every point starts again from its base vector.
     */
    method SetRotateRotationPlane(name: string, value: bool) returns (ghost m: Matrix4)
      requires Valid() && name in rotationMatrixs.planes
      modifies rotationMatrixs.planes[name], PointsOf(Shapes(predefinedObjectsList.list))
      ensures rotationMatrixs.planes[name].doActive == value
      ensures forall n :: n in rotationMatrixs.planes && n != name ==>
        rotationMatrixs.planes[n].doActive == old(rotationMatrixs.planes[n].doActive)
      ensures m == Composite(rotationMatrixs.ActiveAmong(rotationMatrixs.planeNames), 0.01)
      ensures AllReset(Shapes(predefinedObjectsList.list), m)
    {
      rotationMatrixs.SetRotation(name, value);
      var rotationMatrix := rotationMatrixs.GetFullRotationMatrix(0.01);
      m := rotationMatrix;
      label composed:
      Broadcast(predefinedObjectsList.list, rotationMatrix);
      assert unchanged@composed(rotationMatrixs.planes.Values);
    }
  }
}
