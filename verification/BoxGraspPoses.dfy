/**
 Candidate grasp poses on the faces of a box (`generate_box_grasp_poses.cpp`).

 A yaw angle is modelled by its cosine and sine; the angle step 2*pi/n by a unit pair
 whose n-th power is (1, 0).
 */
module BoxGraspPoses {
  import opened Geometry

  datatype Yaw = Yaw(c: real, s: real)

  const NO_YAW := Yaw(1.0, 0.0)

  predicate IsUnit(y: Yaw) {
    y.c * y.c + y.s * y.s == 1.0
  }

  /** Addition of angles. */
  function YawMul(a: Yaw, b: Yaw): Yaw {
    Yaw(a.c * b.c - a.s * b.s, a.s * b.c + a.c * b.s)
  }

  function YawPow(y: Yaw, i: nat): Yaw {
    if i == 0 then NO_YAW else YawMul(YawPow(y, i - 1), y)
  }

  /** The angle step for n rotations. */
  ghost predicate IsStep(y: Yaw, n: nat) {
    IsUnit(y) && YawPow(y, n) == NO_YAW
  }

  function RotZ(y: Yaw): Mat3 {
    Mat3(Vec3(y.c, -y.s, 0.0), Vec3(y.s, y.c, 0.0), Vec3(0.0, 0.0, 1.0))
  }

  predicate ValidSurface(surface: int) {
    0 <= surface <= 5
  }

  function FaceCentre(surface: int, dims: Vec3): Vec3
    requires ValidSurface(surface)
  {
    match surface
    case 0 => Vec3(dims.x / 2.0, 0.0, 0.0)
    case 1 => Vec3(-dims.x / 2.0, 0.0, 0.0)
    case 2 => Vec3(0.0, dims.y / 2.0, 0.0)
    case 3 => Vec3(0.0, -dims.y / 2.0, 0.0)
    case 4 => Vec3(0.0, 0.0, dims.z / 2.0)
    case _ => Vec3(0.0, 0.0, -dims.z / 2.0)
  }

  /** Quarter and half turns about X or Y, written out. */
  function FaceRotation(surface: int): Mat3
    requires ValidSurface(surface)
  {
    match surface
    case 0 => Mat3(Vec3(0.0, 0.0, -1.0), Vec3(0.0, 1.0, 0.0), Vec3(1.0, 0.0, 0.0))
    case 1 => Mat3(Vec3(0.0, 0.0, 1.0), Vec3(0.0, 1.0, 0.0), Vec3(-1.0, 0.0, 0.0))
    case 2 => Mat3(Vec3(1.0, 0.0, 0.0), Vec3(0.0, 0.0, -1.0), Vec3(0.0, 1.0, 0.0))
    case 3 => Mat3(Vec3(1.0, 0.0, 0.0), Vec3(0.0, 0.0, 1.0), Vec3(0.0, -1.0, 0.0))
    case 4 => Mat3(Vec3(1.0, 0.0, 0.0), Vec3(0.0, -1.0, 0.0), Vec3(0.0, 0.0, -1.0))
    case _ => IDENTITY_MATRIX
  }

  /** The outward normal of each face, as the grasp annotations number them. */
  function OutwardNormal(surface: int): Vec3
    requires ValidSurface(surface)
  {
    match surface
    case 0 => Vec3(1.0, 0.0, 0.0)
    case 1 => Vec3(-1.0, 0.0, 0.0)
    case 2 => Vec3(0.0, 1.0, 0.0)
    case 3 => Vec3(0.0, -1.0, 0.0)
    case 4 => Vec3(0.0, 0.0, 1.0)
    case _ => Vec3(0.0, 0.0, -1.0)
  }

  /** The point a distance d behind the tool, along its z axis. */
  function BackOff(d: real): Vec3 {
    Vec3(0.0, 0.0, -d)
  }

  function LocalTransform(dims: Vec3, surface: int, y: Yaw): Isometry
    requires ValidSurface(surface)
  {
    Isometry(Mul(FaceRotation(surface), RotZ(y)), FaceCentre(surface, dims))
  }

  function GraspTransform(center: Isometry, dims: Vec3, surface: int, y: Yaw): Isometry
    requires ValidSurface(surface)
  {
    Compose(center, LocalTransform(dims, surface, y))
  }

  /** One spawned state: the target pose and the comment "surface_<s>_rot_<i>". */
  datatype Spawned = Spawned(frame: string, surface: int, rotation: nat, target: Isometry)

  /** The parameters of one `compute` call. */
  datatype Request = Request(frame: string, center: Isometry, dims: Vec3, n: nat, step: Yaw)

  function PoseOf(r: Request, surface: int, i: nat): Spawned
    requires ValidSurface(surface)
  {
    Spawned(r.frame, surface, i, GraspTransform(r.center, r.dims, surface, YawPow(r.step, i)))
  }

  function FacePoses(r: Request, surface: int, count: nat): seq<Spawned>
    requires ValidSurface(surface)
  {
    seq(count, i requires 0 <= i => PoseOf(r, surface, i))
  }

  function PosesOf(r: Request, surfaces: seq<int>): seq<Spawned> {
    if surfaces == [] then []
    else
      var k := |surfaces| - 1;
      PosesOf(r, surfaces[..k]) + if ValidSurface(surfaces[k]) then FacePoses(r, surfaces[k], r.n) else []
  }

  lemma PosesOfNone(r: Request)
    ensures PosesOf(r, []) == []
  {
  }

  lemma PosesOfNext(r: Request, surfaces: seq<int>, k: nat)
    requires k < |surfaces|
    ensures PosesOf(r, surfaces[..k + 1])
         == PosesOf(r, surfaces[..k]) + if ValidSurface(surfaces[k]) then FacePoses(r, surfaces[k], r.n) else []
  {
    assert surfaces[..k + 1][..k] == surfaces[..k];
  }

  const ALL_SURFACES: seq<int> := [0, 1, 2, 3, 4, 5]

  /** An upstream solution: whether it carries a scene, and whether that scene has a robot model. */
  datatype Upstream = Upstream(hasScene: bool, hasModel: bool)

  class GenerateBoxGraspPoses {
    // cosine and sine of 2*pi/n, for every number of rotations n
    const steps: nat -> Yaw
    var objectFrame: string
    var surfaces: seq<int>
    var numRotations: int
    var dims: Vec3
    var center: Isometry
    var upstream: seq<Upstream>
    var spawned: seq<Spawned>
    var failures: nat

    constructor (steps: nat -> Yaw)
      ensures this.steps == steps
      ensures surfaces == [] && numRotations == 4 && dims == Vec3(0.05, 0.05, 0.05) && center == IDENTITY
      ensures objectFrame == "" && upstream == [] && spawned == [] && failures == 0
    {
      this.steps := steps;
      objectFrame, surfaces, numRotations := "", [], 4;
      dims, center := Vec3(0.05, 0.05, 0.05), IDENTITY;
      upstream, spawned, failures := [], [], 0;
    }

    method Configure(objectId: string, faces: seq<int>, rotations: int, extent: Vec3, frame: Isometry)
      modifies this
      ensures objectFrame == objectId && surfaces == faces && numRotations == rotations
      ensures dims == extent && center == frame
      ensures upstream == old(upstream) && spawned == old(spawned) && failures == old(failures)
    {
      objectFrame, surfaces, numRotations, dims, center := objectId, faces, rotations, extent, frame;
    }

    /**
     A solution is queued only if the object has a frame in the scene; where only its "/whole"
     entity has one, the object becomes that entity, and where neither has, a failure is spawned.
     */
    method OnNewSolution(s: Upstream, frames: set<string>)
      modifies this`objectFrame, this`upstream, this`failures
      ensures var known, whole := old(objectFrame) in frames, old(objectFrame) + "/whole" in frames;
              && objectFrame == old(objectFrame) + (if s.hasScene && !known && whole then "/whole" else "")
              && upstream == old(upstream) + (if s.hasScene && (known || whole) then [s] else [])
              && failures == old(failures) + (if s.hasScene && !known && !whole then 1 else 0)
    {
      if !s.hasScene {
        return;
      }
      if objectFrame !in frames {
        if objectFrame + "/whole" in frames {
          objectFrame := objectFrame + "/whole";
        } else {
          failures := failures + 1;
          return;
        }
      }
      upstream := upstream + [s];
    }

    function CurrentRequest(): Request
      reads this
    {
      var n: nat := if numRotations > 0 then numRotations else 4;
      Request(objectFrame, center, dims, n, steps(n))
    }

    method Compute()
      modifies this`upstream, this`spawned
      ensures upstream == if old(upstream) == [] then [] else old(upstream)[1..]
      ensures spawned == old(spawned) +
                         if old(upstream) == [] || !old(upstream)[0].hasScene || !old(upstream)[0].hasModel then []
                         else
                           var n: nat := if numRotations > 0 then numRotations else 4;
                           PosesOf(Request(objectFrame, center, dims, n, steps(n)), if surfaces == [] then [0, 1, 2, 3, 4, 5] else surfaces)
    {
      if upstream == [] {
        return;
      }
      var s := upstream[0];
      upstream := upstream[1..];
      if !s.hasScene || !s.hasModel {
        return;
      }
      var r := CurrentRequest();
      var activeSurfaces := surfaces;
      if activeSurfaces == [] {
        activeSurfaces := ALL_SURFACES;
      }
      hide PosesOf;
      SpawnSurfaces(r, activeSurfaces);
    }

    /** The outer loop: unknown surface numbers are skipped. */
    method SpawnSurfaces(r: Request, activeSurfaces: seq<int>)
      modifies this`spawned
      ensures spawned == old(spawned) + PosesOf(r, activeSurfaces)
    {
      hide PosesOf, FacePoses;
      PosesOfNone(r);
      for k := 0 to |activeSurfaces|
        invariant spawned == old(spawned) + PosesOf(r, activeSurfaces[..k])
      {
        var surface := activeSurfaces[k];
        PosesOfNext(r, activeSurfaces, k);
        if !ValidSurface(surface) {
          continue;
        }
        SpawnFace(r, surface);
      }
      assert activeSurfaces[..|activeSurfaces|] == activeSurfaces;
    }

    /** The inner loop: one pose per yaw step. */
    method SpawnFace(r: Request, surface: int)
      requires ValidSurface(surface)
      modifies this`spawned
      ensures spawned == old(spawned) + FacePoses(r, surface, r.n)
    {
      hide Compose, LocalTransform, YawMul, ValidSurface;
      var yaw := NO_YAW;
      for i := 0 to r.n
        invariant yaw == YawPow(r.step, i)
        invariant spawned == old(spawned) + FacePoses(r, surface, i)
      {
        var target := Compose(r.center, LocalTransform(r.dims, surface, yaw));
        assert FacePoses(r, surface, i + 1) == FacePoses(r, surface, i) + [PoseOf(r, surface, i)];
        spawned := spawned + [Spawned(r.frame, surface, i, target)];
        yaw := YawMul(yaw, r.step);
      }
    }
  }

  // ---- yaw steps ----

  lemma YawMulUnit(a: Yaw, b: Yaw)
    requires IsUnit(a) && IsUnit(b)
    ensures IsUnit(YawMul(a, b))
  {
    YawMulNorm(a.c, a.s, b.c, b.s, YawMul(a, b).c, YawMul(a, b).s, 1.0, 1.0);
  }

  lemma YawMulNorm(a: real, b: real, c: real, d: real, p: real, q: real, m: real, n: real)
    requires p == a * c - b * d && q == b * c + a * d && m == a * a + b * b && n == c * c + d * d
    ensures p * p + q * q == m * n
  {
  }

  lemma YawMulAssoc(a: Yaw, b: Yaw, c: Yaw)
    ensures YawMul(YawMul(a, b), c) == YawMul(a, YawMul(b, c))
  {
    var ab, bc := YawMul(a, b), YawMul(b, c);
    AssocPolynomial(a.c, a.s, b.c, b.s, c.c, c.s, ab.c, ab.s, bc.c, bc.s);
    hide YawMul;
    YawEq(a, bc, ab, c);
  }

  lemma AssocPolynomial(a: real, b: real, c: real, d: real, e: real, f: real, p: real, q: real, u: real, v: real)
    requires p == a * c - b * d && q == b * c + a * d && u == c * e - d * f && v == d * e + c * f
    ensures p * e - q * f == a * u - b * v && q * e + p * f == b * u + a * v
  {
  }

  lemma YawEq(a: Yaw, bc: Yaw, ab: Yaw, c: Yaw)
    requires ab.c * c.c - ab.s * c.s == a.c * bc.c - a.s * bc.s
    requires ab.s * c.c + ab.c * c.s == a.s * bc.c + a.c * bc.s
    ensures YawMul(ab, c) == YawMul(a, bc)
  {
  }

  lemma {:induction false} YawPowUnit(y: Yaw, i: nat)
    requires IsUnit(y)
    ensures IsUnit(YawPow(y, i))
  {
    if i > 0 {
      YawPowUnit(y, i - 1);
      YawMulUnit(YawPow(y, i - 1), y);
    }
  }

  lemma {:induction false} YawPowAdd(y: Yaw, i: nat, j: nat)
    ensures YawPow(y, i + j) == YawMul(YawPow(y, i), YawPow(y, j))
  {
    hide YawMul;
    if j == 0 {
      YawMulNoYaw(YawPow(y, i));
    } else {
      YawPowAdd(y, i, j - 1);
      YawMulAssoc(YawPow(y, i), YawPow(y, j - 1), y);
    }
  }

  lemma YawMulNoYaw(y: Yaw)
    ensures YawMul(y, NO_YAW) == y == YawMul(NO_YAW, y)
  {
  }

  /** Multiplication by a unit yaw can be undone. */
  lemma YawCancel(a: Yaw, b: Yaw)
    requires IsUnit(a) && YawMul(a, b) == a
    ensures b == NO_YAW
  {
    var p, q := YawMul(a, b).c, YawMul(a, b).s;
    CancelPolynomial(a.c, a.s, b.c, b.s, p, q);
    assert a.c * p + a.s * q == 1.0;
    assert a.c * q - a.s * p == 0.0;
  }

  lemma CancelPolynomial(a: real, b: real, c: real, d: real, p: real, q: real)
    requires p == a * c - b * d && q == b * c + a * d && a * a + b * b == 1.0
    ensures a * p + b * q == c && a * q - b * p == d
  {
    assert a * p + b * q == (a * a + b * b) * c;
    assert a * q - b * p == (a * a + b * b) * d;
  }

  /** One more full turn changes nothing. */
  lemma YawPeriodic(y: Yaw, n: nat, i: nat)
    requires IsStep(y, n)
    ensures YawPow(y, i + n) == YawPow(y, i)
  {
    hide YawMul;
    YawPowAdd(y, i, n);
    YawMulNoYaw(YawPow(y, i));
  }

  /** The step of exactly one n-th of a turn: no fewer steps come round. */
  ghost predicate IsPrimitive(y: Yaw, n: nat) {
    IsStep(y, n) && forall m :: 0 < m < n ==> YawPow(y, m) != NO_YAW
  }

  lemma YawDistinct(y: Yaw, n: nat, i: nat, j: nat)
    requires IsPrimitive(y, n) && i < j < n
    ensures YawPow(y, i) != YawPow(y, j)
  {
    hide YawMul, IsUnit;
    YawPowAdd(y, i, j - i);
    YawPowUnit(y, i);
    if YawPow(y, i) == YawPow(y, j) {
      YawCancel(YawPow(y, i), YawPow(y, j - i));
    }
  }

  // ---- rotations by axis and angle ----

  /** Rodrigues' formula for the unit axis u and the angle with this cosine and sine. */
  function AngleAxis(u: Vec3, c: real, s: real): Mat3 {
    var k := 1.0 - c;
    Mat3(
      Vec3(c + u.x * u.x * k, u.x * u.y * k - u.z * s, u.x * u.z * k + u.y * s),
      Vec3(u.y * u.x * k + u.z * s, c + u.y * u.y * k, u.y * u.z * k - u.x * s),
      Vec3(u.z * u.x * k - u.y * s, u.z * u.y * k + u.x * s, c + u.z * u.z * k))
  }

  const UNIT_X := Vec3(1.0, 0.0, 0.0)
  const UNIT_Y := Vec3(0.0, 1.0, 0.0)
  const UNIT_Z := Vec3(0.0, 0.0, 1.0)

  datatype Turn = Turn(axis: Vec3, c: real, s: real)

  /**
   The turns the source names: a quarter back and forth about Y for the X faces, forth and back
   about X for the Y faces, a half turn about X and none for the Z faces.
   */
  function FaceTurn(surface: int): Turn
    requires ValidSurface(surface)
  {
    match surface
    case 0 => Turn(UNIT_Y, 0.0, -1.0)
    case 1 => Turn(UNIT_Y, 0.0, 1.0)
    case 2 => Turn(UNIT_X, 0.0, 1.0)
    case 3 => Turn(UNIT_X, 0.0, -1.0)
    case 4 => Turn(UNIT_X, -1.0, 0.0)
    case _ => Turn(UNIT_X, 1.0, 0.0)
  }

  /** The matrices written out above are these turns, and the yaw is a turn about Z. */
  lemma RotationsByAngle(surface: int, y: Yaw)
    requires ValidSurface(surface)
    ensures FaceRotation(surface) == AngleAxis(FaceTurn(surface).axis, FaceTurn(surface).c, FaceTurn(surface).s)
    ensures RotZ(y) == AngleAxis(UNIT_Z, y.c, y.s)
  {
    hide AngleAxis;
    var t := FaceTurn(surface);
    AboutX(t.c, t.s);
    AboutY(t.c, t.s);
    AboutZ(y.c, y.s);
  }

  lemma AboutX(c: real, s: real)
    ensures AngleAxis(UNIT_X, c, s) == Mat3(Vec3(1.0, 0.0, 0.0), Vec3(0.0, c, -s), Vec3(0.0, s, c))
  {
  }

  lemma AboutY(c: real, s: real)
    ensures AngleAxis(UNIT_Y, c, s) == Mat3(Vec3(c, 0.0, s), Vec3(0.0, 1.0, 0.0), Vec3(-s, 0.0, c))
  {
  }

  lemma AboutZ(c: real, s: real)
    ensures AngleAxis(UNIT_Z, c, s) == Mat3(Vec3(c, -s, 0.0), Vec3(s, c, 0.0), Vec3(0.0, 0.0, 1.0))
  {
  }

  /** Two yaws after one another are the yaw of the sum of the angles. */
  lemma RotZMul(a: Yaw, b: Yaw)
    ensures Mul(RotZ(a), RotZ(b)) == RotZ(YawMul(a, b))
  {
    assert Transpose(RotZ(b)) == Mat3(Vec3(b.c, b.s, 0.0), Vec3(-b.s, b.c, 0.0), UNIT_Z);
    SignProducts(a.c, a.s, b.c, b.s);
  }

  lemma SignProducts(a: real, b: real, c: real, d: real)
    ensures (-b) * c == -(b * c) && (-d) * a == -(d * a) && (-b) * d == -(b * d) && (-d) * (-b) == b * d && (-d) * b == -(b * d)
  {
  }

  /** Each rotation of a face is the one before, turned one step further about its own z axis. */
  lemma NextRotation(center: Isometry, dims: Vec3, surface: int, step: Yaw, i: nat)
    requires ValidSurface(surface)
    ensures GraspTransform(center, dims, surface, YawPow(step, i + 1))
         == Compose(GraspTransform(center, dims, surface, YawPow(step, i)), Isometry(RotZ(step), ZERO))
  {
    var y := YawPow(step, i);
    var turn := Isometry(RotZ(step), ZERO);
    hide Mul, MulVec, FaceRotation, RotZ, YawMul, FaceCentre;
    RotZMul(y, step);
    MulAssoc(FaceRotation(surface), RotZ(y), RotZ(step));
    ZeroMapsToZero(Mul(FaceRotation(surface), RotZ(y)), FaceCentre(surface, dims));
    assert LocalTransform(dims, surface, YawMul(y, step)) == Compose(LocalTransform(dims, surface, y), turn);
    ComposeAssoc(center, LocalTransform(dims, surface, y), turn);
    hide Compose, LocalTransform;
  }

  /** And the first pose of a face is not turned at all. */
  lemma FirstRotation(r: Request, surface: int)
    requires ValidSurface(surface)
    ensures PoseOf(r, surface, 0).target == Compose(r.center, Isometry(FaceRotation(surface), FaceCentre(surface, r.dims)))
  {
    hide Compose, FaceRotation, FaceCentre, Mul, MulVec;
    IdentityLaws(FaceRotation(surface), ZERO);
    assert YawPow(r.step, 0) == NO_YAW;
    assert RotZ(NO_YAW) == IDENTITY_MATRIX;
    hide YawPow, RotZ;
  }

  /** The centre of a face lies half an extent away from the centre of the box, against the tool's z axis. */
  lemma FaceCentreIs(surface: int, dims: Vec3)
    requires ValidSurface(surface)
    ensures var m, c := FaceRotation(surface), FaceCentre(surface, dims);
            2.0 * c.x == -m.r0.z * dims.x && 2.0 * c.y == -m.r1.z * dims.y && 2.0 * c.z == -m.r2.z * dims.z
  {
  }

  lemma ZeroMapsToZero(m: Mat3, t: Vec3)
    ensures Add(MulVec(m, ZERO), t) == t && Add(t, MulVec(m, ZERO)) == t
  {
  }

  // ---- every generated pose ----

  lemma RotZIsRotation(y: Yaw)
    requires IsUnit(y)
    ensures IsRotation(RotZ(y))
  {
    hide Mul, Det, RotZ, Transpose, Dot, IsUnit;
    var back := Yaw(y.c, -y.s);
    RotZRows(y);
    RotZRows(back);
    RotZDet(y);
    RotZTranspose(y);
    OrthonormalRows(RotZ(y));
    OrthonormalRows(RotZ(back));
  }

  lemma RotZTranspose(y: Yaw)
    ensures Transpose(RotZ(y)) == RotZ(Yaw(y.c, -y.s)) && Transpose(RotZ(Yaw(y.c, -y.s))) == RotZ(y)
  {
  }

  lemma RotZRows(y: Yaw)
    requires IsUnit(y)
    ensures var m := RotZ(y);
            && Dot(m.r0, m.r0) == Dot(m.r1, m.r1) == Dot(m.r2, m.r2) == 1.0
            && Dot(m.r0, m.r1) == Dot(m.r1, m.r2) == Dot(m.r2, m.r0) == 0.0
    ensures IsUnit(Yaw(y.c, -y.s))
  {
    assert (-y.s) * (-y.s) == y.s * y.s && (-y.s) * y.c == -(y.s * y.c);
  }

  lemma RotZDet(y: Yaw)
    requires IsUnit(y)
    ensures Det(RotZ(y)) == 1.0
  {
    assert Cross(RotZ(y).r1, RotZ(y).r2) == Vec3(y.c, -y.s, 0.0);
    assert (-y.s) * (-y.s) == y.s * y.s;
  }

  lemma FaceRotationIsRotation(surface: int)
    requires ValidSurface(surface)
    ensures IsRotation(FaceRotation(surface))
  {
    var m := FaceRotation(surface);
    assert Transpose(Transpose(m)) == m;
    FaceRows(surface);
    FaceColumns(surface);
    FaceDet(surface);
    hide FaceRotation, Dot, Mul, Det;
    OrthonormalRows(m);
    OrthonormalRows(Transpose(m));
  }

  lemma FaceRows(surface: int)
    requires ValidSurface(surface)
    ensures var m := FaceRotation(surface);
            && Dot(m.r0, m.r0) == Dot(m.r1, m.r1) == Dot(m.r2, m.r2) == 1.0
            && Dot(m.r0, m.r1) == Dot(m.r1, m.r2) == Dot(m.r2, m.r0) == 0.0
  {
  }

  /** The opposite turn is the face rotation with the tilted axes swapped. */
  lemma FaceColumns(surface: int)
    requires ValidSurface(surface)
    ensures var t := Transpose(FaceRotation(surface));
            && Dot(t.r0, t.r0) == Dot(t.r1, t.r1) == Dot(t.r2, t.r2) == 1.0
            && Dot(t.r0, t.r1) == Dot(t.r1, t.r2) == Dot(t.r2, t.r0) == 0.0
  {
    var opposite := if surface >= 4 then surface else if surface % 2 == 0 then surface + 1 else surface - 1;
    FaceOpposite(surface, opposite);
    FaceRows(opposite);
    hide FaceRotation, Dot, Transpose;
  }

  lemma FaceOpposite(surface: int, opposite: int)
    requires ValidSurface(surface) && ValidSurface(opposite)
    requires opposite == if surface >= 4 then surface else if surface % 2 == 0 then surface + 1 else surface - 1
    ensures Transpose(FaceRotation(surface)) == FaceRotation(opposite)
  {
  }

  lemma FaceDet(surface: int)
    requires ValidSurface(surface)
    ensures Det(FaceRotation(surface)) == 1.0
  {
  }

  lemma FaceAxis(surface: int, d: real)
    requires ValidSurface(surface)
    ensures MulVec(FaceRotation(surface), Vec3(0.0, 0.0, d)) == Scale(-d, OutwardNormal(surface))
  {
  }

  lemma RotZFixesAxis(y: Yaw, d: real)
    ensures MulVec(RotZ(y), Vec3(0.0, 0.0, d)) == Vec3(0.0, 0.0, d)
  {
  }

  /**
   The transform is a proper rigid motion; its origin is the centre of the face and its
   z axis the inward normal, both carried into the object frame.
   */
  lemma GraspTransformRigid(center: Isometry, dims: Vec3, surface: int, y: Yaw)
    requires IsRigid(center) && ValidSurface(surface) && IsUnit(y)
    ensures IsRigid(GraspTransform(center, dims, surface, y))
    ensures GraspTransform(center, dims, surface, y).translation == Apply(center, FaceCentre(surface, dims))
    ensures MulVec(GraspTransform(center, dims, surface, y).linear, Vec3(0.0, 0.0, 1.0))
         == MulVec(center.linear, Scale(-1.0, OutwardNormal(surface)))
  {
    hide Mul, MulVec, IsRotation, FaceRotation, OutwardNormal, RotZ, IsUnit, Scale, Apply;
    var z := Vec3(0.0, 0.0, 1.0);
    RotZIsRotation(y);
    FaceRotationIsRotation(surface);
    FaceAxis(surface, 1.0);
    RotationProduct(FaceRotation(surface), RotZ(y));
    RotationProduct(center.linear, Mul(FaceRotation(surface), RotZ(y)));
    MulVecAssoc(center.linear, Mul(FaceRotation(surface), RotZ(y)), z);
    MulVecAssoc(FaceRotation(surface), RotZ(y), z);
    RotZFixesAxis(y, 1.0);
  }

  /** A point of the object frame lies in the closed box with this centre frame and these dimensions. */
  predicate InBox(center: Isometry, dims: Vec3, p: Vec3) {
    var l := Apply(Inverse(center), p);
    && -dims.x / 2.0 <= l.x <= dims.x / 2.0
    && -dims.y / 2.0 <= l.y <= dims.y / 2.0
    && -dims.z / 2.0 <= l.z <= dims.z / 2.0
  }

  lemma LocalBackOff(dims: Vec3, surface: int, y: Yaw, d: real)
    requires ValidSurface(surface)
    ensures Apply(LocalTransform(dims, surface, y), BackOff(d))
         == Add(FaceCentre(surface, dims), Scale(d, OutwardNormal(surface)))
  {
    hide Mul, MulVec, RotZ, FaceRotation, FaceCentre, Scale, OutwardNormal;
    var z := BackOff(d);
    MulVecAssoc(FaceRotation(surface), RotZ(y), z);
    RotZFixesAxis(y, -d);
    FaceAxis(surface, -d);
    AddCommutes(Scale(d, OutwardNormal(surface)), FaceCentre(surface, dims));
  }

  lemma AddCommutes(a: Vec3, b: Vec3)
    ensures Add(a, b) == Add(b, a)
  {
  }

  /** In the box frame, a point carried into the object frame and back is where it was. */
  lemma InverseApply(t: Isometry, p: Vec3)
    requires IsRigid(t)
    ensures Apply(Inverse(t), Apply(t, p)) == p
  {
    hide Apply, Inverse, Compose, IsRigid;
    ComposeApply(Inverse(t), t, p);
    InverseCancels(t);
    ApplyIdentity(p);
  }

  lemma ApplyIdentity(p: Vec3)
    ensures Apply(IDENTITY, p) == p
  {
  }

  /** Backing off along the tool axis by any positive distance leaves the box. */
  lemma BackOffLeavesBox(center: Isometry, dims: Vec3, surface: int, y: Yaw, d: real)
    requires IsRigid(center) && ValidSurface(surface) && d > 0.0
    ensures !InBox(center, dims, Apply(GraspTransform(center, dims, surface, y), BackOff(d)))
  {
    var z := BackOff(d);
    var local := LocalTransform(dims, surface, y);
    var p := Apply(local, z);
    assert Apply(Inverse(center), Apply(GraspTransform(center, dims, surface, y), z)) == p by {
      hide Apply, Inverse, IsRigid, LocalTransform;
      ComposeApply(center, local, z);
      InverseApply(center, p);
    }
    LocalBackOff(dims, surface, y, d);
    hide Apply, LocalTransform, Inverse;
  }

  /**
   The fallback pre-grasp pose: whatever rigid pose the object has in the world, going to the
   world frame, backing off along the tool axis and coming back gives the grasp pose times the
   back-off translation.
   */
  lemma FallbackPreGraspIndependentOfWorld(worldTObject: Isometry, grasp: Isometry, retract: real)
    requires IsRigid(worldTObject)
    ensures Compose(Inverse(worldTObject), Compose(Compose(worldTObject, grasp), Translation(BackOff(retract))))
         == Compose(grasp, Translation(BackOff(retract)))
  {
    hide Compose, Inverse, Translation, IsRigid;
    var t := Translation(BackOff(retract));
    ComposeAssoc(worldTObject, grasp, t);
    ComposeAssoc(Inverse(worldTObject), worldTObject, Compose(grasp, t));
    InverseCancels(worldTObject);
    IdentityCompose(Compose(grasp, t));
  }

  /** So the fallback pre-grasp point of a generated grasp is always outside the box. */
  lemma FallbackPreGraspOutside(worldTObject: Isometry, center: Isometry, dims: Vec3, surface: int, y: Yaw, retract: real)
    requires IsRigid(worldTObject) && IsRigid(center) && ValidSurface(surface) && retract > 0.0
    ensures var grasp := GraspTransform(center, dims, surface, y);
            var pre := Compose(Inverse(worldTObject), Compose(Compose(worldTObject, grasp), Translation(BackOff(retract))));
            !InBox(center, dims, pre.translation)
  {
    var grasp := GraspTransform(center, dims, surface, y);
    hide IsRigid, InBox, GraspTransform, Apply, Inverse;
    FallbackPreGraspIndependentOfWorld(worldTObject, grasp, retract);
    BackOffLeavesBox(center, dims, surface, y, retract);
  }

  // ---- the whole list ----

  function ValidOnly(surfaces: seq<int>): (r: seq<int>)
    ensures forall k :: 0 <= k < |r| ==> ValidSurface(r[k])
  {
    if surfaces == [] then []
    else
      var k := |surfaces| - 1;
      ValidOnly(surfaces[..k]) + if ValidSurface(surfaces[k]) then [surfaces[k]] else []
  }

  lemma {:induction false} ValidOnlyKeeps(surfaces: seq<int>, x: int)
    ensures x in ValidOnly(surfaces) <==> x in surfaces && 0 <= x <= 5
  {
    if surfaces != [] {
      var k := |surfaces| - 1;
      ValidOnlyKeeps(surfaces[..k], x);
      assert surfaces == surfaces[..k] + [surfaces[k]];
    }
  }

  /** Position of the i-th entry of the k-th block of length n. */
  function Slot(k: nat, n: nat, i: nat): nat {
    k * n + i
  }

  /** The list is exactly the valid surfaces times the rotations, in order. */
  lemma {:induction false} PosesInOrder(r: Request, surfaces: seq<int>)
    ensures |PosesOf(r, surfaces)| == |ValidOnly(surfaces)| * r.n
    ensures forall k, i :: 0 <= k < |ValidOnly(surfaces)| && 0 <= i < r.n ==>
              && Slot(k, r.n, i) < |PosesOf(r, surfaces)|
              && PosesOf(r, surfaces)[Slot(k, r.n, i)] == PoseOf(r, ValidOnly(surfaces)[k], i)
  {
    hide PoseOf, ValidSurface, Slot, FacePoses;
    if surfaces != [] {
      var last := |surfaces| - 1;
      PosesInOrder(r, surfaces[..last]);
      if ValidSurface(surfaces[last]) {
        var before, valid := PosesOf(r, surfaces[..last]), ValidOnly(surfaces[..last]);
        var after := before + FacePoses(r, surfaces[last], r.n);
        FacePosesLength(r, surfaces[last], |valid|);
        forall k, i | 0 <= k <= |valid| && 0 <= i < r.n
          ensures Slot(k, r.n, i) < |after| && after[Slot(k, r.n, i)] == PoseOf(r, (valid + [surfaces[last]])[k], i)
        {
          if k < |valid| {
            BlockIndex(k, i, |valid|, r.n);
          } else {
            BlockIndex(k, i, |valid| + 1, r.n);
            BlockEntry(before, r, surfaces[last], i, |valid|);
          }
        }
      }
    }
  }

  lemma FacePosesLength(r: Request, surface: int, m: nat)
    requires ValidSurface(surface)
    ensures |FacePoses(r, surface, r.n)| == r.n && m * r.n + r.n == (m + 1) * r.n
  {
  }

  lemma BlockIndex(k: nat, i: nat, m: nat, n: nat)
    requires k < m && i < n
    ensures Slot(k, n, i) < m * n
  {
    assert (k + 1) * n <= m * n;
  }

  lemma BlockEntry(before: seq<Spawned>, r: Request, surface: int, i: nat, m: nat)
    requires ValidSurface(surface) && i < r.n && |before| == m * r.n
    ensures Slot(m, r.n, i) < |before + FacePoses(r, surface, r.n)|
    ensures (before + FacePoses(r, surface, r.n))[Slot(m, r.n, i)] == PoseOf(r, surface, i)
  {
    hide PoseOf;
    assert Slot(m, r.n, i) == |before| + i;
    hide Slot;
  }

  /** What a spawned state promises: a rigid target on its face, whose every back-off leaves the box. */
  ghost predicate SoundPose(r: Request, p: Spawned) {
    && ValidSurface(p.surface) && p.rotation < r.n
    && IsRigid(p.target)
    && p.target.translation == Apply(r.center, FaceCentre(p.surface, r.dims))
    && (forall d: real :: d > 0.0 ==> !InBox(r.center, r.dims, Apply(p.target, BackOff(d))))
  }

  lemma {:induction false} EveryPoseSound(r: Request, surfaces: seq<int>)
    requires IsRigid(r.center) && IsUnit(r.step)
    ensures forall p :: p in PosesOf(r, surfaces) ==> SoundPose(r, p)
  {
    hide SoundPose, IsRigid, IsUnit;
    if surfaces != [] {
      var last := |surfaces| - 1;
      EveryPoseSound(r, surfaces[..last]);
      if ValidSurface(surfaces[last]) {
        forall i | 0 <= i < r.n
          ensures SoundPose(r, FacePoses(r, surfaces[last], r.n)[i])
        {
          OnePoseSound(r, surfaces[last], i);
        }
      }
    }
  }

  lemma OnePoseSound(r: Request, surface: int, i: nat)
    requires IsRigid(r.center) && IsUnit(r.step) && ValidSurface(surface) && i < r.n
    ensures SoundPose(r, PoseOf(r, surface, i))
  {
    hide IsRigid, IsUnit, Apply, GraspTransform, InBox, FaceCentre, MulVec, Scale, OutwardNormal;
    var y, p := YawPow(r.step, i), PoseOf(r, surface, i);
    YawPowUnit(r.step, i);
    GraspTransformRigid(r.center, r.dims, surface, y);
    forall d: real | d > 0.0
      ensures !InBox(r.center, r.dims, Apply(p.target, BackOff(d)))
    {
      BackOffLeavesBox(r.center, r.dims, surface, y, d);
    }
  }

  lemma LeftCancel(t: Isometry, a: Isometry, b: Isometry)
    requires IsRigid(t) && Compose(t, a) == Compose(t, b)
    ensures a == b
  {
    hide Compose, Inverse, IsRigid;
    InverseCancels(t);
    ComposeAssoc(Inverse(t), t, a);
    ComposeAssoc(Inverse(t), t, b);
    IdentityCompose(a);
    IdentityCompose(b);
  }

  lemma LinearCancel(m: Mat3, a: Mat3, b: Mat3)
    requires IsRotation(m) && Mul(m, a) == Mul(m, b)
    ensures a == b
  {
    hide Mul, Det;
    MulAssoc(Transpose(m), m, a);
    MulAssoc(Transpose(m), m, b);
    IdentityLaws(a, ZERO);
    IdentityLaws(b, ZERO);
  }

  lemma FaceCentresDiffer(s: int, t: int, dims: Vec3)
    requires ValidSurface(s) && ValidSurface(t) && dims.x > 0.0 && dims.y > 0.0 && dims.z > 0.0
    requires FaceCentre(s, dims) == FaceCentre(t, dims)
    ensures s == t
  {
  }

  lemma SameTarget(r: Request, s: int, i: nat, t: int, j: nat)
    requires IsRigid(r.center) && r.dims.x > 0.0 && r.dims.y > 0.0 && r.dims.z > 0.0
    requires ValidSurface(s) && ValidSurface(t) && PoseOf(r, s, i).target == PoseOf(r, t, j).target
    ensures s == t && YawPow(r.step, i) == YawPow(r.step, j)
  {
    var y, z := YawPow(r.step, i), YawPow(r.step, j);
    LeftCancel(r.center, LocalTransform(r.dims, s, y), LocalTransform(r.dims, t, z));
    FaceCentresDiffer(s, t, r.dims);
    FaceRotationIsRotation(s);
    hide Mul, IsRigid, IsRotation, Compose, FaceRotation, FaceCentre;
    LinearCancel(FaceRotation(s), RotZ(y), RotZ(z));
    assert y == Yaw(RotZ(y).r0.x, RotZ(y).r1.x) && z == Yaw(RotZ(z).r0.x, RotZ(z).r1.x);
  }

  /** On a proper box different rotations of a face give different poses, and so do different faces. */
  lemma EntriesDiffer(r: Request, s: int, i: nat, t: int, j: nat)
    requires IsRigid(r.center) && IsPrimitive(r.step, r.n) && r.dims.x > 0.0 && r.dims.y > 0.0 && r.dims.z > 0.0
    requires ValidSurface(s) && ValidSurface(t) && i < r.n && j < r.n && (s != t || i != j)
    ensures PoseOf(r, s, i).target != PoseOf(r, t, j).target
  {
    hide IsRigid, GraspTransform, IsPrimitive, YawPow;
    if i < j {
      YawDistinct(r.step, r.n, i, j);
    } else if j < i {
      YawDistinct(r.step, r.n, j, i);
    }
    if PoseOf(r, s, i).target == PoseOf(r, t, j).target {
      SameTarget(r, s, i, t, j);
    }
  }

  predicate NoRepeats(surfaces: seq<int>) {
    forall k, l :: 0 <= k < l < |surfaces| ==> surfaces[k] != surfaces[l]
  }

  predicate TargetsDiffer(poses: seq<Spawned>) {
    forall a, b :: 0 <= a < b < |poses| ==> poses[a].target != poses[b].target
  }

  /** Every index is the slot of one rotation of one block. */
  lemma {:induction false} SlotOf(a: nat, m: nat, n: nat) returns (k: nat, i: nat)
    requires a < m * n
    ensures k < m && i < n && Slot(k, n, i) == a
  {
    assert m > 0;
    assert (m - 1) * n + n == m * n;
    if a < (m - 1) * n {
      k, i := SlotOf(a, m - 1, n);
    } else {
      k, i := m - 1, a - (m - 1) * n;
    }
  }

  lemma SlotsRise(k: nat, l: nat, n: nat)
    requires k < l && n > 0
    ensures Slot(k, n, 0) < Slot(l, n, 0)
  {
    BlockIndex(k, 0, l, n);
  }

  /** On a proper box the generated targets are pairwise different exactly when no valid surface is listed twice. */
  lemma PosesDistinct(r: Request, surfaces: seq<int>)
    requires IsRigid(r.center) && IsPrimitive(r.step, r.n) && r.n > 0
    requires r.dims.x > 0.0 && r.dims.y > 0.0 && r.dims.z > 0.0
    ensures TargetsDiffer(PosesOf(r, surfaces)) <==> NoRepeats(ValidOnly(surfaces))
  {
    var poses, valid := PosesOf(r, surfaces), ValidOnly(surfaces);
    PosesInOrder(r, surfaces);
    hide IsRigid, IsPrimitive, PoseOf, PosesOf, ValidOnly, Slot;
    forall k, l | 0 <= k < l < |valid| && valid[k] == valid[l]
      ensures !TargetsDiffer(poses)
    {
      SlotsRise(k, l, r.n);
      assert poses[Slot(k, r.n, 0)].target == poses[Slot(l, r.n, 0)].target;
    }
    if NoRepeats(valid) {
      forall a, b | 0 <= a < b < |poses|
        ensures poses[a].target != poses[b].target
      {
        var k, i := SlotOf(a, |valid|, r.n);
        var l, j := SlotOf(b, |valid|, r.n);
        assert k != l ==> valid[k] != valid[l];
        EntriesDiffer(r, valid[k], i, valid[l], j);
      }
    }
  }

  /** Nothing is generated exactly when surfaces are given and none of them is valid. */
  lemma PosesEmptyIff(r: Request, surfaces: seq<int>)
    requires r.n > 0
    ensures PosesOf(r, if surfaces == [] then ALL_SURFACES else surfaces) == []
       <==> surfaces != [] && forall k :: 0 <= k < |surfaces| ==> !ValidSurface(surfaces[k])
  {
    var active := if surfaces == [] then ALL_SURFACES else surfaces;
    PosesInOrder(r, active);
    ValidOnlyEmpty(active);
    hide PosesOf, ValidOnly;
    if |ValidOnly(active)| > 0 {
      assert |ValidOnly(active)| * r.n > 0;
    }
    assert ALL_SURFACES[0] == 0;
  }

  lemma {:induction false} ValidOnlyEmpty(surfaces: seq<int>)
    ensures ValidOnly(surfaces) == [] <==> forall k :: 0 <= k < |surfaces| ==> !ValidSurface(surfaces[k])
  {
    if surfaces != [] {
      var last := |surfaces| - 1;
      ValidOnlyEmpty(surfaces[..last]);
      forall k | 0 <= k < last
        ensures surfaces[..last][k] == surfaces[k]
      {
      }
    }
  }

  /** The surface filter of the pipeline: keep 0..5, fall back to all six. */
  method FilterSurfaces(requested: seq<int>) returns (surfaces: seq<int>)
    ensures surfaces == if ValidOnly(requested) == [] then ALL_SURFACES else ValidOnly(requested)
    ensures surfaces != [] && forall k :: 0 <= k < |surfaces| ==> ValidSurface(surfaces[k])
  {
    surfaces := [];
    for k := 0 to |requested|
      invariant surfaces == ValidOnly(requested[..k])
    {
      assert requested[..k + 1][..k] == requested[..k];
      if 0 <= requested[k] <= 5 {
        surfaces := surfaces + [requested[k]];
      }
    }
    assert requested[..|requested|] == requested;
    if surfaces == [] {
      surfaces := ALL_SURFACES;
    }
  }

  lemma {:induction false} ValidOnlyIdentity(surfaces: seq<int>)
    requires forall k :: 0 <= k < |surfaces| ==> ValidSurface(surfaces[k])
    ensures ValidOnly(surfaces) == surfaces
  {
    if surfaces != [] {
      var last := |surfaces| - 1;
      ValidOnlyIdentity(surfaces[..last]);
      assert surfaces == surfaces[..last] + [surfaces[last]];
    }
  }

  /** After the filter: the six surfaces it falls back to are all different. */
  lemma FilteredPosesDistinct(r: Request, requested: seq<int>)
    requires IsRigid(r.center) && IsPrimitive(r.step, r.n) && r.n > 0
    requires r.dims.x > 0.0 && r.dims.y > 0.0 && r.dims.z > 0.0
    ensures var surfaces := if ValidOnly(requested) == [] then ALL_SURFACES else ValidOnly(requested);
            TargetsDiffer(PosesOf(r, surfaces)) <==> NoRepeats(ValidOnly(requested))
  {
    hide IsRigid, IsPrimitive, PosesOf, TargetsDiffer;
    var surfaces := if ValidOnly(requested) == [] then ALL_SURFACES else ValidOnly(requested);
    ValidOnlyIdentity(surfaces);
    hide ValidOnly;
    PosesDistinct(r, surfaces);
  }

  lemma AtLeastOnce(m: nat, n: nat)
    requires m > 0
    ensures m * n >= n
  {
  }

  /** After the filter the generator yields one pose per kept surface and rotation: at least one. */
  lemma FilteredPosesNonEmpty(r: Request, requested: seq<int>)
    requires r.n > 0
    ensures var surfaces := if ValidOnly(requested) == [] then ALL_SURFACES else ValidOnly(requested);
            |PosesOf(r, surfaces)| == |surfaces| * r.n > 0
  {
    var surfaces := if ValidOnly(requested) == [] then ALL_SURFACES else ValidOnly(requested);
    hide PosesOf, PoseOf, Slot;
    ValidOnlyIdentity(surfaces);
    PosesInOrder(r, surfaces);
    hide ValidOnly;
    AtLeastOnce(|surfaces|, r.n);
  }
}
