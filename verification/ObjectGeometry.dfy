/**
 The bounding box of a collision object (`object_geometry.cpp`): the first well-formed
 BOX primitive if there is one, otherwise the least axis-aligned box around every
 transformed mesh vertex.
 */
module ObjectGeometry {
  import opened Wrappers
  import opened Geometry

  datatype ShapeKind = Box | Sphere | Cylinder | Cone

  datatype SolidPrimitive = SolidPrimitive(kind: ShapeKind, dimensions: seq<real>)

  /** A mesh is modelled by its vertices; its triangles play no part here. */
  datatype CollisionObject = CollisionObject(
    id: string,
    primitives: seq<SolidPrimitive>, primitivePoses: seq<Pose>,
    meshes: seq<seq<Vec3>>, meshPoses: seq<Pose>)

  datatype ObjectBoundingBox = ObjectBoundingBox(dimensions: Vec3, center: Isometry)

  predicate ValidBox(p: SolidPrimitive) {
    && p.kind.Box?
    && |p.dimensions| > 2
    && p.dimensions[0] > 0.0 && p.dimensions[1] > 0.0 && p.dimensions[2] > 0.0
  }

  /** The i-th pose, or identity where the message carries fewer poses than shapes. */
  function PoseAt(poses: seq<Pose>, i: nat): Isometry {
    if i < |poses| then PoseToIsometry(poses[i]) else IDENTITY
  }

  function Transformed(t: Isometry, vs: seq<Vec3>): seq<Vec3> {
    seq(|vs|, i requires 0 <= i < |vs| => Apply(t, vs[i]))
  }

  /** Every mesh vertex of the object, in the frame of the object. */
  function VerticesOf(meshes: seq<seq<Vec3>>, poses: seq<Pose>): seq<Vec3> {
    if meshes == [] then []
    else
      var n := |meshes| - 1;
      VerticesOf(meshes[..n], poses) + Transformed(PoseAt(poses, n), meshes[n])
  }

  ghost predicate Contains(lo: Vec3, hi: Vec3, vs: seq<Vec3>) {
    forall v :: v in vs ==> lo.x <= v.x <= hi.x && lo.y <= v.y <= hi.y && lo.z <= v.z <= hi.z
  }

  /** Each of the six faces carries a vertex. */
  ghost predicate Touched(lo: Vec3, hi: Vec3, vs: seq<Vec3>) {
    && (exists v :: v in vs && v.x == lo.x) && (exists v :: v in vs && v.x == hi.x)
    && (exists v :: v in vs && v.y == lo.y) && (exists v :: v in vs && v.y == hi.y)
    && (exists v :: v in vs && v.z == lo.z) && (exists v :: v in vs && v.z == hi.z)
  }

  ghost predicate Inside(lo: Vec3, hi: Vec3, lo': Vec3, hi': Vec3) {
    && lo'.x <= lo.x && lo'.y <= lo.y && lo'.z <= lo.z
    && hi.x <= hi'.x && hi.y <= hi'.y && hi.z <= hi'.z
  }

  /** Some axis has no extent: all vertices agree on that coordinate. */
  ghost predicate Flat(vs: seq<Vec3>) {
    || (forall u, v :: u in vs && v in vs ==> u.x == v.x)
    || (forall u, v :: u in vs && v in vs ==> u.y == v.y)
    || (forall u, v :: u in vs && v in vs ==> u.z == v.z)
  }

  /** Being touched on all six faces makes a containing box the least one. */
  lemma TouchedIsLeast(lo: Vec3, hi: Vec3, vs: seq<Vec3>, lo': Vec3, hi': Vec3)
    requires Contains(lo, hi, vs) && Touched(lo, hi, vs) && Contains(lo', hi', vs)
    ensures Inside(lo, hi, lo', hi')
  {
  }

  function Lower(box: ObjectBoundingBox): Vec3 {
    Sub(box.center.translation, Scale(0.5, box.dimensions))
  }

  function Upper(box: ObjectBoundingBox): Vec3 {
    Add(box.center.translation, Scale(0.5, box.dimensions))
  }

  function Min(a: Vec3, b: Vec3): Vec3 {
    Vec3(if a.x < b.x then a.x else b.x, if a.y < b.y then a.y else b.y, if a.z < b.z then a.z else b.z)
  }

  function Max(a: Vec3, b: Vec3): Vec3 {
    Vec3(if a.x > b.x then a.x else b.x, if a.y > b.y then a.y else b.y, if a.z > b.z then a.z else b.z)
  }

  /** Growing a tight box by one vertex keeps it tight. */
  lemma GrowTight(lo: Vec3, hi: Vec3, vs: seq<Vec3>, v: Vec3)
    requires vs != [] ==> Contains(lo, hi, vs) && Touched(lo, hi, vs)
    ensures var lo', hi' := if vs == [] then v else Min(lo, v), if vs == [] then v else Max(hi, v);
            Contains(lo', hi', vs + [v]) && Touched(lo', hi', vs + [v])
  {
  }

  /** A tight box has no extent on an axis exactly when the vertices agree there. */
  lemma TightFlat(lo: Vec3, hi: Vec3, vs: seq<Vec3>)
    requires Contains(lo, hi, vs) && Touched(lo, hi, vs)
    ensures Flat(vs) <==> lo.x >= hi.x || lo.y >= hi.y || lo.z >= hi.z
  {
  }

  ghost predicate HasValidBox(obj: CollisionObject) {
    exists i :: 0 <= i < |obj.primitives| && ValidBox(obj.primitives[i])
  }

  function BoxAt(obj: CollisionObject, i: nat): ObjectBoundingBox
    requires i < |obj.primitives| && ValidBox(obj.primitives[i])
  {
    var d := obj.primitives[i].dimensions;
    ObjectBoundingBox(Vec3(d[0], d[1], d[2]), PoseAt(obj.primitivePoses, i))
  }

  method FirstBoxPrimitive(obj: CollisionObject) returns (r: Option<ObjectBoundingBox>)
    ensures r.Some? <==> HasValidBox(obj)
    ensures forall i ::
              0 <= i < |obj.primitives| && ValidBox(obj.primitives[i])
              && (forall j :: 0 <= j < i ==> !ValidBox(obj.primitives[j]))
              ==> r == Some(BoxAt(obj, i))
    // with the three dimensions in their order, at the pose of the same index
    ensures forall i ::
              0 <= i < |obj.primitives| && ValidBox(obj.primitives[i])
              && (forall j :: 0 <= j < i ==> !ValidBox(obj.primitives[j]))
              ==> var d := obj.primitives[i].dimensions;
                  && r.Some? && r.value.dimensions == Vec3(d[0], d[1], d[2])
                  && r.value.center == if i < |obj.primitivePoses| then PoseToIsometry(obj.primitivePoses[i]) else IDENTITY
  {
    for i := 0 to |obj.primitives|
      invariant forall j :: 0 <= j < i ==> !ValidBox(obj.primitives[j])
    {
      var p := obj.primitives[i];
      if !p.kind.Box? || |p.dimensions| <= 2 {
        continue;
      }
      var dimensions := Vec3(p.dimensions[0], p.dimensions[1], p.dimensions[2]);
      if dimensions.x <= 0.0 || dimensions.y <= 0.0 || dimensions.z <= 0.0 {
        continue;
      }
      assert ValidBox(obj.primitives[i]);
      return Some(ObjectBoundingBox(dimensions, PoseAt(obj.primitivePoses, i)));
    }
    return None;
  }

  lemma NoMeshes(poses: seq<Pose>)
    ensures VerticesOf([], poses) == []
  {
  }

  lemma NoneTransformed(t: Isometry)
    ensures Transformed(t, []) == []
  {
  }

  lemma TransformedNext(t: Isometry, vs: seq<Vec3>, j: nat)
    requires j < |vs|
    ensures Transformed(t, vs[..j + 1]) == Transformed(t, vs[..j]) + [Apply(t, vs[j])]
  {
  }

  lemma VerticesNext(meshes: seq<seq<Vec3>>, poses: seq<Pose>, i: nat)
    requires i < |meshes|
    ensures VerticesOf(meshes[..i + 1], poses) == VerticesOf(meshes[..i], poses) + Transformed(PoseAt(poses, i), meshes[i])
  {
    assert meshes[..i + 1][..i] == meshes[..i];
  }

  /** The source starts from plus and minus infinity; `found` stands for having left them. */
  method MeshBounds(obj: CollisionObject) returns (minimum: Vec3, maximum: Vec3, found: bool)
    ensures found <==> VerticesOf(obj.meshes, obj.meshPoses) != []
    ensures found ==> Contains(minimum, maximum, VerticesOf(obj.meshes, obj.meshPoses))
    ensures found ==> Touched(minimum, maximum, VerticesOf(obj.meshes, obj.meshPoses))
  {
    hide Contains, Touched, PoseAt, Apply, Min, Max, Transformed, VerticesOf;
    NoMeshes(obj.meshPoses);
    minimum, maximum, found := ZERO, ZERO, false;
    ghost var seen := [];
    for i := 0 to |obj.meshes|
      invariant seen == VerticesOf(obj.meshes[..i], obj.meshPoses)
      invariant found <==> seen != []
      invariant found ==> Contains(minimum, maximum, seen) && Touched(minimum, maximum, seen)
    {
      var t := PoseAt(obj.meshPoses, i);
      var mesh := obj.meshes[i];
      ghost var before := seen;
      NoneTransformed(t);
      for j := 0 to |mesh|
        invariant seen == before + Transformed(t, mesh[..j])
        invariant found <==> seen != []
        invariant found ==> Contains(minimum, maximum, seen) && Touched(minimum, maximum, seen)
      {
        var v := Apply(t, mesh[j]);
        GrowTight(minimum, maximum, seen, v);
        minimum := if found then Min(minimum, v) else v;
        maximum := if found then Max(maximum, v) else v;
        found := true;
        TransformedNext(t, mesh, j);
        seen := seen + [v];
      }
      assert mesh[..|mesh|] == mesh;
      VerticesNext(obj.meshes, obj.meshPoses, i);
    }
    assert obj.meshes[..|obj.meshes|] == obj.meshes;
  }

  /** What the answer is for an object. */
  ghost predicate BoxOf(obj: CollisionObject, r: Option<ObjectBoundingBox>) {
    // The first well-formed BOX primitive decides.
    && (forall i ::
          0 <= i < |obj.primitives| && ValidBox(obj.primitives[i])
          && (forall j :: 0 <= j < i ==> !ValidBox(obj.primitives[j]))
          ==> r == Some(BoxAt(obj, i)))
    // Without one, the answer is the least box around the vertices, when that box has a volume.
    && (!HasValidBox(obj) ==>
          var vs := VerticesOf(obj.meshes, obj.meshPoses);
          && (r.None? <==> vs == [] || Flat(vs))
          && (r.Some? ==>
                && r.value.center.linear == IDENTITY_MATRIX
                && Contains(Lower(r.value), Upper(r.value), vs)
                && Touched(Lower(r.value), Upper(r.value), vs)
                && (forall lo, hi :: Contains(lo, hi, vs) ==> Inside(Lower(r.value), Upper(r.value), lo, hi))))
  }

  /** That leaves one answer only. */
  lemma BoxUnique(obj: CollisionObject, r: Option<ObjectBoundingBox>, r': Option<ObjectBoundingBox>)
    requires BoxOf(obj, r) && BoxOf(obj, r')
    ensures r == r'
  {
    hide Contains, Touched, Flat, PoseAt, VerticesOf, ValidBox;
    if HasValidBox(obj) {
      var i := FirstValidBox(obj);
    } else if r.Some? {
      SameCorners(r.value, r'.value);
    }
  }

  lemma SameCorners(a: ObjectBoundingBox, b: ObjectBoundingBox)
    requires Inside(Lower(a), Upper(a), Lower(b), Upper(b)) && Inside(Lower(b), Upper(b), Lower(a), Upper(a))
    requires a.center.linear == b.center.linear
    ensures a == b
  {
  }

  lemma FirstValidBox(obj: CollisionObject) returns (i: nat)
    requires HasValidBox(obj)
    ensures i < |obj.primitives| && ValidBox(obj.primitives[i]) && forall j :: 0 <= j < i ==> !ValidBox(obj.primitives[j])
  {
    hide ValidBox;
    i := 0;
    while !ValidBox(obj.primitives[i])
      invariant i < |obj.primitives| && forall j :: 0 <= j < i ==> !ValidBox(obj.primitives[j])
      decreases |obj.primitives| - i
    {
      i := i + 1;
    }
  }

  lemma {:induction false} TightExists(vs: seq<Vec3>) returns (lo: Vec3, hi: Vec3)
    requires vs != []
    ensures Contains(lo, hi, vs) && Touched(lo, hi, vs)
  {
    hide Contains, Touched, Min, Max;
    var n := |vs| - 1;
    var before, v := vs[..n], vs[n];
    assert vs == before + [v];
    if n == 0 {
      GrowTight(v, v, before, v);
      lo, hi := v, v;
    } else {
      lo, hi := TightExists(before);
      GrowTight(lo, hi, before, v);
      lo, hi := Min(lo, v), Max(hi, v);
    }
  }

  function BoxBetween(lo: Vec3, hi: Vec3): ObjectBoundingBox {
    ObjectBoundingBox(Sub(hi, lo), Isometry(IDENTITY_MATRIX, Scale(0.5, Add(lo, hi))))
  }

  /** A tight box, unless it is flat, is the answer for an object without a valid BOX primitive. */
  lemma TightBoxOf(obj: CollisionObject, lo: Vec3, hi: Vec3)
    requires !HasValidBox(obj) && VerticesOf(obj.meshes, obj.meshPoses) != []
    requires Contains(lo, hi, VerticesOf(obj.meshes, obj.meshPoses)) && Touched(lo, hi, VerticesOf(obj.meshes, obj.meshPoses))
    ensures BoxOf(obj, if lo.x >= hi.x || lo.y >= hi.y || lo.z >= hi.z then None else Some(BoxBetween(lo, hi)))
  {
    var vs := VerticesOf(obj.meshes, obj.meshPoses);
    TightFlat(lo, hi, vs);
    hide Contains, Touched, Flat, VerticesOf, Inside, PoseAt;
    var box := BoxBetween(lo, hi);
    assert Lower(box) == lo && Upper(box) == hi;
    forall lo', hi' | Contains(lo', hi', vs)
      ensures Inside(lo, hi, lo', hi')
    {
      TouchedIsLeast(lo, hi, vs, lo', hi');
    }
  }

  lemma BoxExists(obj: CollisionObject)
    ensures exists r :: BoxOf(obj, r)
  {
    hide Contains, Touched, Flat, VerticesOf, ValidBox, PoseAt;
    var vs := VerticesOf(obj.meshes, obj.meshPoses);
    if HasValidBox(obj) {
      var i := FirstValidBox(obj);
      assert BoxOf(obj, Some(BoxAt(obj, i)));
    } else if vs == [] {
      assert BoxOf(obj, None);
    } else {
      var lo, hi := TightExists(vs);
      TightBoxOf(obj, lo, hi);
    }
  }

  /** The vertices that count: each vertex of each mesh at the pose of its mesh, as it is where that has no pose. */
  lemma {:induction false} VerticesAre(meshes: seq<seq<Vec3>>, poses: seq<Pose>, v: Vec3)
    ensures v in VerticesOf(meshes, poses) <==>
            exists i, j :: 0 <= i < |meshes| && 0 <= j < |meshes[i]| && IsVertex(meshes[i][j], poses, i, v)
  {
    if meshes != [] {
      var n := |meshes| - 1;
      VerticesAre(meshes[..n], poses, v);
      assert forall i :: 0 <= i < n ==> meshes[..n][i] == meshes[i];
      MeshVertices(meshes[n], poses, n, v);
      hide Transformed, PoseAt, IsVertex, VerticesOf;
      assert VerticesOf(meshes, poses) == VerticesOf(meshes[..n], poses) + Transformed(PoseAt(poses, n), meshes[n]) by {
        assert meshes[..n + 1] == meshes;
        VerticesNext(meshes, poses, n);
      }
      if j :| 0 <= j < |meshes[n]| && IsVertex(meshes[n][j], poses, n, v) {
        assert v in Transformed(PoseAt(poses, n), meshes[n]);
      }
    }
  }

  predicate IsVertex(corner: Vec3, poses: seq<Pose>, i: nat, v: Vec3) {
    v == if i < |poses| then Apply(PoseToIsometry(poses[i]), corner) else corner
  }

  lemma MeshVertices(mesh: seq<Vec3>, poses: seq<Pose>, i: nat, v: Vec3)
    ensures v in Transformed(PoseAt(poses, i), mesh) <==> exists j :: 0 <= j < |mesh| && IsVertex(mesh[j], poses, i, v)
  {
    forall j: nat | j < |mesh|
      ensures Apply(PoseAt(poses, i), mesh[j]) == v <==> IsVertex(mesh[j], poses, i, v)
    {
      IdentityApply(mesh[j]);
      hide Apply, PoseToIsometry;
    }
    hide Apply, PoseAt, IsVertex;
    var vs := Transformed(PoseAt(poses, i), mesh);
    if v in vs {
      var j: nat :| j < |vs| && vs[j] == v;
      assert IsVertex(mesh[j], poses, i, v);
    }
    if j: nat :| j < |mesh| && IsVertex(mesh[j], poses, i, v) {
      assert vs[j] == v;
    }
  }

  lemma IdentityApply(p: Vec3)
    ensures Apply(IDENTITY, p) == p
  {
    IdentityLaws(IDENTITY_MATRIX, p);
    hide MulVec;
  }

  /** For an object without a valid BOX: the extents between the least and the greatest coordinates, and their middle. */
  lemma MeshBoxIs(obj: CollisionObject, lo: Vec3, hi: Vec3)
    requires !HasValidBox(obj) && VerticesOf(obj.meshes, obj.meshPoses) != []
    requires Contains(lo, hi, VerticesOf(obj.meshes, obj.meshPoses)) && Touched(lo, hi, VerticesOf(obj.meshes, obj.meshPoses))
    ensures var r := BoundingBoxOf(obj);
            && (r.Some? <==> lo.x < hi.x && lo.y < hi.y && lo.z < hi.z)
            && (r.Some? ==>
                  && r.value.dimensions == Vec3(hi.x - lo.x, hi.y - lo.y, hi.z - lo.z)
                  && r.value.center.translation == Vec3((lo.x + hi.x) / 2.0, (lo.y + hi.y) / 2.0, (lo.z + hi.z) / 2.0)
                  && r.value.center.linear == IDENTITY_MATRIX)
  {
    TightBoxOf(obj, lo, hi);
    hide BoxOf, Contains, Touched, VerticesOf, HasValidBox, BoundingBoxOf;
    BoxUnique(obj, BoundingBoxOf(obj), if lo.x >= hi.x || lo.y >= hi.y || lo.z >= hi.z then None else Some(BoxBetween(lo, hi)));
  }

  /** The one answer for an object. */
  ghost function BoundingBoxOf(obj: CollisionObject): (r: Option<ObjectBoundingBox>)
    ensures BoxOf(obj, r)
  {
    BoxExists(obj);
    var r :| BoxOf(obj, r); r
  }

  method ComputeObjectBoundingBox(obj: CollisionObject) returns (r: Option<ObjectBoundingBox>)
    ensures BoxOf(obj, r) && r == BoundingBoxOf(obj)
  {
    hide Contains, Touched, Flat, PoseAt, Inside, VerticesOf, IsRigid, BoxOf, BoundingBoxOf;
    r := FirstBoxPrimitive(obj);
    if r.Some? {
      PrimitiveBoxOf(obj, r);
    } else {
      var minimum, maximum, found := MeshBounds(obj);
      if found {
        TightBoxOf(obj, minimum, maximum);
        var dimensions := Sub(maximum, minimum);
        if dimensions.x > 0.0 && dimensions.y > 0.0 && dimensions.z > 0.0 {
          r := Some(ObjectBoundingBox(dimensions, Isometry(IDENTITY_MATRIX, Scale(0.5, Add(minimum, maximum)))));
        }
      } else {
        NoVertices(obj);
      }
    }
    BoxUnique(obj, r, BoundingBoxOf(obj));
  }

  lemma PrimitiveBoxOf(obj: CollisionObject, r: Option<ObjectBoundingBox>)
    requires HasValidBox(obj)
    requires forall i ::
               0 <= i < |obj.primitives| && ValidBox(obj.primitives[i])
               && (forall j :: 0 <= j < i ==> !ValidBox(obj.primitives[j]))
               ==> r == Some(BoxAt(obj, i))
    ensures BoxOf(obj, r)
  {
    hide ValidBox;
  }

  lemma NoVertices(obj: CollisionObject)
    requires !HasValidBox(obj) && VerticesOf(obj.meshes, obj.meshPoses) == []
    ensures BoxOf(obj, None)
  {
  }

  lemma IdentityRigid(t: Isometry)
    requires t.linear == IDENTITY_MATRIX
    ensures IsRigid(t)
  {
  }

  /** Every bounding box has a rigid centre frame and a positive extent on each axis. */
  lemma BoundingBoxSound(obj: CollisionObject, box: ObjectBoundingBox)
    requires BoxOf(obj, Some(box))
    ensures IsRigid(box.center)
    ensures box.dimensions.x > 0.0 && box.dimensions.y > 0.0 && box.dimensions.z > 0.0
  {
    hide PoseAt, IsRigid;
    if HasValidBox(obj) {
      var i := FirstValidBox(obj);
      PoseAtRigid(obj.primitivePoses, i);
    } else {
      IdentityRigid(box.center);
      TightFlat(Lower(box), Upper(box), VerticesOf(obj.meshes, obj.meshPoses));
      hide Contains, Touched, Inside, Flat, VerticesOf;
    }
  }

  lemma PoseAtRigid(poses: seq<Pose>, i: nat)
    ensures IsRigid(PoseAt(poses, i))
  {
    if i < |poses| {
      PoseToIsometryRigid(poses[i]);
    }
  }
}
