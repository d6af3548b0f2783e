/**
 Rigid-body algebra over the reals: vectors, 3x3 matrices, rigid transforms and
 quaternions. A rotation matrix is written rationally, dividing by the squared
 norm of the quaternion, so no square root is needed.
 */
module Geometry {

  datatype Vec3 = Vec3(x: real, y: real, z: real)

  datatype Quat = Quat(w: real, x: real, y: real, z: real)

  datatype Pose = Pose(position: Vec3, orientation: Quat)

  /** Row-major 3x3 matrix. */
  datatype Mat3 = Mat3(r0: Vec3, r1: Vec3, r2: Vec3)

  /** p |-> linear * p + translation */
  datatype Isometry = Isometry(linear: Mat3, translation: Vec3)

  const ZERO := Vec3(0.0, 0.0, 0.0)

  const IDENTITY_MATRIX := Mat3(Vec3(1.0, 0.0, 0.0), Vec3(0.0, 1.0, 0.0), Vec3(0.0, 0.0, 1.0))

  const IDENTITY := Isometry(IDENTITY_MATRIX, ZERO)

  /** The pose of a message whose fields nobody set: the origin, not rotated. */
  const DEFAULT_POSE := Pose(ZERO, Quat(1.0, 0.0, 0.0, 0.0))

  function Add(a: Vec3, b: Vec3): Vec3 {
    Vec3(a.x + b.x, a.y + b.y, a.z + b.z)
  }

  function Sub(a: Vec3, b: Vec3): Vec3 {
    Vec3(a.x - b.x, a.y - b.y, a.z - b.z)
  }

  function Scale(k: real, a: Vec3): Vec3 {
    Vec3(k * a.x, k * a.y, k * a.z)
  }

  function Dot(a: Vec3, b: Vec3): real {
    a.x * b.x + a.y * b.y + a.z * b.z
  }

  function Transpose(m: Mat3): Mat3 {
    Mat3(Vec3(m.r0.x, m.r1.x, m.r2.x), Vec3(m.r0.y, m.r1.y, m.r2.y), Vec3(m.r0.z, m.r1.z, m.r2.z))
  }

  function MulVec(m: Mat3, v: Vec3): Vec3 {
    Vec3(Dot(m.r0, v), Dot(m.r1, v), Dot(m.r2, v))
  }

  function Mul(a: Mat3, b: Mat3): Mat3 {
    var t := Transpose(b);
    Mat3(MulVec(t, a.r0), MulVec(t, a.r1), MulVec(t, a.r2))
  }

  function ScaleMatrix(k: real, m: Mat3): Mat3 {
    Mat3(Scale(k, m.r0), Scale(k, m.r1), Scale(k, m.r2))
  }

  function Cross(a: Vec3, b: Vec3): Vec3 {
    Vec3(a.y * b.z - a.z * b.y, a.z * b.x - a.x * b.z, a.x * b.y - a.y * b.x)
  }

  function Det(m: Mat3): real {
    Dot(m.r0, Cross(m.r1, m.r2))
  }

  /** A proper rotation: orthogonal with determinant one. */
  ghost predicate IsRotation(m: Mat3) {
    Mul(m, Transpose(m)) == IDENTITY_MATRIX && Mul(Transpose(m), m) == IDENTITY_MATRIX && Det(m) == 1.0
  }

  ghost predicate IsRigid(t: Isometry) {
    IsRotation(t.linear)
  }

  function Apply(t: Isometry, p: Vec3): Vec3 {
    Add(MulVec(t.linear, p), t.translation)
  }

  function Compose(a: Isometry, b: Isometry): Isometry {
    Isometry(Mul(a.linear, b.linear), Apply(a, b.translation))
  }

  /** The inverse of an isometry transposes its linear part. */
  function Inverse(t: Isometry): Isometry {
    var rt := Transpose(t.linear);
    Isometry(rt, Scale(-1.0, MulVec(rt, t.translation)))
  }

  function Translation(v: Vec3): Isometry {
    Isometry(IDENTITY_MATRIX, v)
  }

  function SumSq(w: real, x: real, y: real, z: real): real {
    w * w + x * x + y * y + z * z
  }

  function NormSq(q: Quat): real {
    SumSq(q.w, q.x, q.y, q.z)
  }

  function ScaleQuat(k: real, q: Quat): Quat {
    Quat(k * q.w, k * q.x, k * q.y, k * q.z)
  }

  // The entries of the rotation matrix of a normalized quaternion, times the squared norm.
  // The matrix is invariant under the cyclic renaming x -> y -> z -> x.

  function DiagonalEntry(w: real, x: real, y: real, z: real): real {
    w * w + x * x - y * y - z * z
  }

  function DifferenceEntry(w: real, x: real, y: real, z: real): real {
    2.0 * (x * y - w * z)
  }

  function SumEntry(w: real, x: real, y: real, z: real): real {
    2.0 * (x * y + w * z)
  }

  function ScaledRotation(q: Quat): Mat3 {
    Mat3(
      Vec3(DiagonalEntry(q.w, q.x, q.y, q.z), DifferenceEntry(q.w, q.x, q.y, q.z), SumEntry(q.w, q.z, q.x, q.y)),
      Vec3(SumEntry(q.w, q.x, q.y, q.z), DiagonalEntry(q.w, q.y, q.z, q.x), DifferenceEntry(q.w, q.y, q.z, q.x)),
      Vec3(DifferenceEntry(q.w, q.z, q.x, q.y), SumEntry(q.w, q.y, q.z, q.x), DiagonalEntry(q.w, q.z, q.x, q.y)))
  }

  function RotationOf(q: Quat): Mat3
    requires NormSq(q) > 0.0
  {
    ScaleMatrix(1.0 / NormSq(q), ScaledRotation(q))
  }

  /** `pose_to_isometry`: a (nearly) zero quaternion leaves the rotation at identity. */
  function PoseToIsometry(pose: Pose): Isometry {
    Isometry(if NormSq(pose.orientation) > 0.000001 then RotationOf(pose.orientation) else IDENTITY_MATRIX, pose.position)
  }

  // ---- matrix laws, row by row ----

  lemma DotMulVec(a: Vec3, b: Mat3, v: Vec3)
    ensures Dot(MulVec(Transpose(b), a), v) == Dot(a, MulVec(b, v))
  {
  }

  lemma DotCommutes(a: Vec3, b: Vec3)
    ensures Dot(a, b) == Dot(b, a)
  {
  }

  lemma MulVecAssoc(a: Mat3, b: Mat3, v: Vec3)
    ensures MulVec(Mul(a, b), v) == MulVec(a, MulVec(b, v))
  {
    DotMulVec(a.r0, b, v);
    DotMulVec(a.r1, b, v);
    DotMulVec(a.r2, b, v);
  }

  lemma TransposeMul(a: Mat3, b: Mat3)
    ensures Transpose(Mul(a, b)) == Mul(Transpose(b), Transpose(a))
  {
    var c := Transpose(b);
    assert forall u: Vec3, v: Vec3 :: Dot(u, v) == Dot(v, u) by {
      forall u: Vec3, v: Vec3 { DotCommutes(u, v); }
    }
    assert Transpose(Transpose(a)) == a && Transpose(c) == b;
  }

  lemma MulAssoc(a: Mat3, b: Mat3, c: Mat3)
    ensures Mul(Mul(a, b), c) == Mul(a, Mul(b, c))
  {
    var t := Transpose(c);
    TransposeMul(b, c);
    MulVecAssoc(t, Transpose(b), a.r0);
    MulVecAssoc(t, Transpose(b), a.r1);
    MulVecAssoc(t, Transpose(b), a.r2);
  }

  lemma IdentityLaws(m: Mat3, v: Vec3)
    ensures Mul(IDENTITY_MATRIX, m) == m == Mul(m, IDENTITY_MATRIX)
    ensures MulVec(IDENTITY_MATRIX, v) == v
  {
  }

  /** A product the solver does not look into. */
  function Times(a: real, b: real): real {
    a * b
  }

  lemma ScaleByTimes(k: real, u: Vec3)
    ensures Scale(k, u) == Vec3(Times(k, u.x), Times(k, u.y), Times(k, u.z))
  {
  }

  lemma DotLinear(r: Vec3, u: Vec3, v: Vec3, k: real)
    ensures Dot(r, Add(u, v)) == Dot(r, u) + Dot(r, v)
    ensures Dot(r, Scale(k, v)) == Times(k, Dot(r, v))
  {
  }

  lemma MulVecLinear(m: Mat3, u: Vec3, v: Vec3, k: real)
    ensures MulVec(m, Add(u, v)) == Add(MulVec(m, u), MulVec(m, v))
    ensures MulVec(m, Scale(k, v)) == Scale(k, MulVec(m, v))
  {
    hide Dot, Scale, Times;
    DotLinear(m.r0, u, v, k);
    DotLinear(m.r1, u, v, k);
    DotLinear(m.r2, u, v, k);
    ScaleByTimes(k, MulVec(m, v));
  }

  function Cofactors(b: Mat3): Mat3 {
    Mat3(Cross(b.r1, b.r2), Cross(b.r2, b.r0), Cross(b.r0, b.r1))
  }

  /** A 2x2 minor of a matrix product, in terms of the minors of its factors. */
  lemma MinorOfProduct(a: Vec3, c: Vec3, y: Vec3, z: Vec3)
    ensures Dot(y, a) * Dot(z, c) - Dot(z, a) * Dot(y, c) == Dot(Cross(y, z), Cross(a, c))
  {
  }

  lemma CrossOfProduct(t: Mat3, u: Vec3, v: Vec3)
    ensures Cross(MulVec(t, u), MulVec(t, v)) == MulVec(Cofactors(t), Cross(u, v))
  {
    MinorOfProduct(u, v, t.r1, t.r2);
    MinorOfProduct(u, v, t.r2, t.r0);
    MinorOfProduct(u, v, t.r0, t.r1);
  }

  /** A combination g of the rows of b against a combination k of its cofactors. */
  lemma CofactorExpansion(g: Vec3, k: Vec3, b: Mat3)
    ensures Dot(MulVec(Transpose(b), g), MulVec(Transpose(Cofactors(b)), k)) == Dot(g, k) * Det(b)
  {
    var p, c := MulVec(Transpose(b), g), Transpose(Cofactors(b));
    DotMulVec(k, Cofactors(b), p);
    DotCommutes(p, MulVec(c, k));
    RowAgainstCofactors(g, b);
    assert MulVec(Cofactors(b), p) == Scale(Det(b), g);
    DotScale(Det(b), k, g);
    DotCommutes(k, g);
  }

  lemma RowAgainstCofactors(g: Vec3, b: Mat3)
    ensures MulVec(Cofactors(b), MulVec(Transpose(b), g)) == Scale(Det(b), g)
  {
    hide Dot, Cross, Combine;
    Combination(b, g);
    ExpandRow(g.x, g.y, g.z, b.r0, b.r1, b.r2);
    ExpandRow(g.y, g.z, g.x, b.r1, b.r2, b.r0);
    ExpandRow(g.z, g.x, g.y, b.r2, b.r0, b.r1);
    DetCyclic(b.r0, b.r1, b.r2);
    DetCyclic(b.r1, b.r2, b.r0);
    VecEq(MulVec(Cofactors(b), MulVec(Transpose(b), g)), Scale(Det(b), g));
  }

  function Combine(g1: real, u: Vec3, g2: real, v: Vec3, g3: real, w: Vec3): Vec3 {
    Vec3(g1 * u.x + g2 * v.x + g3 * w.x, g1 * u.y + g2 * v.y + g3 * w.y, g1 * u.z + g2 * v.z + g3 * w.z)
  }

  lemma Combination(b: Mat3, g: Vec3)
    ensures MulVec(Transpose(b), g) == Combine(g.x, b.r0, g.y, b.r1, g.z, b.r2)
         == Combine(g.y, b.r1, g.z, b.r2, g.x, b.r0) == Combine(g.z, b.r2, g.x, b.r0, g.y, b.r1)
  {
  }

  lemma DetCyclic(u: Vec3, v: Vec3, w: Vec3)
    ensures Dot(u, Cross(v, w)) == Dot(v, Cross(w, u))
  {
  }

  lemma ExpandRow(g1: real, g2: real, g3: real, u: Vec3, v: Vec3, w: Vec3)
    ensures Dot(Cross(v, w), Combine(g1, u, g2, v, g3, w)) == Dot(u, Cross(v, w)) * g1
  {
  }

  lemma DetMul(a: Mat3, b: Mat3)
    ensures Det(Mul(a, b)) == Det(a) * Det(b)
  {
    var t := Transpose(b);
    CrossOfProduct(t, a.r1, a.r2);
    TransposedCofactors(b);
    hide Cofactors, Transpose, Cross, Dot;
    CofactorExpansion(a.r0, Cross(a.r1, a.r2), b);
  }

  lemma TransposedCofactors(b: Mat3)
    ensures Cofactors(Transpose(b)) == Transpose(Cofactors(b))
  {
    var t := Transpose(b);
    CrossByMinors(t.r0, t.r1);
    CrossByMinors(t.r1, t.r2);
    CrossByMinors(t.r2, t.r0);
    CrossByMinors(b.r0, b.r1);
    CrossByMinors(b.r1, b.r2);
    CrossByMinors(b.r2, b.r0);
    TransposedMinors();
    hide Cross, Minor;
  }

  function Minor(a: real, b: real, c: real, d: real): real {
    a * d - b * c
  }

  lemma CrossByMinors(u: Vec3, v: Vec3)
    ensures Cross(u, v) == Vec3(Minor(u.y, u.z, v.y, v.z), Minor(u.z, u.x, v.z, v.x), Minor(u.x, u.y, v.x, v.y))
  {
  }

  lemma TransposedMinors()
    ensures forall a, b, c, d :: Minor(a, b, c, d) == Minor(a, c, b, d)
  {
  }

  // ---- rotations and rigid motions ----

  lemma RotationProduct(a: Mat3, b: Mat3)
    requires IsRotation(a) && IsRotation(b)
    ensures IsRotation(Mul(a, b))
  {
    var p, at, bt := Mul(a, b), Transpose(a), Transpose(b);
    TransposeMul(a, b);
    calc {
      Mul(p, Mul(bt, at));
      { MulAssoc(a, b, Mul(bt, at)); MulAssoc(b, bt, at); IdentityLaws(at, ZERO); }
      Mul(a, at);
    }
    calc {
      Mul(Mul(bt, at), p);
      { MulAssoc(bt, at, p); MulAssoc(at, a, b); IdentityLaws(b, ZERO); }
      Mul(bt, b);
    }
    DetMul(a, b);
  }

  lemma ComposeRigid(a: Isometry, b: Isometry)
    requires IsRigid(a) && IsRigid(b)
    ensures IsRigid(Compose(a, b))
  {
    RotationProduct(a.linear, b.linear);
  }

  lemma ComposeAssoc(a: Isometry, b: Isometry, c: Isometry)
    ensures Compose(Compose(a, b), c) == Compose(a, Compose(b, c))
  {
    MulAssoc(a.linear, b.linear, c.linear);
    MulVecAssoc(a.linear, b.linear, c.translation);
    MulVecLinear(a.linear, MulVec(b.linear, c.translation), b.translation, 1.0);
  }

  lemma ComposeApply(a: Isometry, b: Isometry, p: Vec3)
    ensures Apply(Compose(a, b), p) == Apply(a, Apply(b, p))
  {
    MulVecAssoc(a.linear, b.linear, p);
    MulVecLinear(a.linear, MulVec(b.linear, p), b.translation, 1.0);
  }

  lemma InverseCancels(t: Isometry)
    requires IsRigid(t)
    ensures Compose(Inverse(t), t) == IDENTITY
  {
    var rt := Transpose(t.linear);
    assert Add(MulVec(rt, t.translation), Scale(-1.0, MulVec(rt, t.translation))) == ZERO;
  }

  lemma InverseCancelsRight(t: Isometry)
    requires IsRigid(t)
    ensures Compose(t, Inverse(t)) == IDENTITY
  {
    var r, rt, p := t.linear, Transpose(t.linear), t.translation;
    MulVecAssoc(r, rt, p);
    IdentityLaws(r, p);
    MulVecLinear(r, ZERO, MulVec(rt, p), -1.0);
    hide MulVec, Mul, Transpose, Det;
    assert Add(MulVec(r, Scale(-1.0, MulVec(rt, p))), p) == ZERO;
  }

  lemma IdentityCompose(t: Isometry)
    ensures Compose(IDENTITY, t) == t
  {
    IdentityLaws(t.linear, t.translation);
  }

  // ---- quaternions ----

  function Conjugate(q: Quat): Quat {
    Quat(q.w, -q.x, -q.y, -q.z)
  }

  lemma SumSqCyclic(w: real, x: real, y: real, z: real)
    ensures SumSq(w, x, y, z) == SumSq(w, y, z, x)
  {
  }

  lemma ConjugateEntries(w: real, x: real, y: real, z: real)
    ensures DiagonalEntry(w, -x, -y, -z) == DiagonalEntry(w, x, y, z)
    ensures DifferenceEntry(w, -x, -y, -z) == SumEntry(w, x, y, z)
    ensures SumEntry(w, -x, -y, -z) == DifferenceEntry(w, x, y, z)
    ensures SumSq(w, -x, -y, -z) == SumSq(w, x, y, z)
  {
    assert (-x) * (-x) == x * x && (-y) * (-y) == y * y && (-z) * (-z) == z * z;
    assert (-x) * (-y) == x * y && w * (-z) == -(w * z);
  }

  lemma ConjugateTransposes(q: Quat)
    ensures ScaledRotation(Conjugate(q)) == Transpose(ScaledRotation(q)) && NormSq(Conjugate(q)) == NormSq(q)
  {
    hide DiagonalEntry, DifferenceEntry, SumEntry, SumSq;
    ConjugateEntries(q.w, q.x, q.y, q.z);
    ConjugateEntries(q.w, q.y, q.z, q.x);
    ConjugateEntries(q.w, q.z, q.x, q.y);
  }

  lemma VecEq(a: Vec3, b: Vec3)
    requires a.x == b.x && a.y == b.y && a.z == b.z
    ensures a == b
  {
  }

  lemma NormPolynomial(w: real, x: real, y: real, z: real, a: real, b: real, c: real, n: real)
    requires a == w * w + x * x - y * y - z * z && b == 2.0 * (x * y - w * z) && c == 2.0 * (z * x + w * y)
    requires n == w * w + x * x + y * y + z * z
    ensures a * a + b * b + c * c == n * n
  {
  }

  lemma PairPolynomial(w: real, x: real, y: real, z: real, a: real, b: real, c: real, d: real, e: real, f: real)
    requires a == w * w + x * x - y * y - z * z && b == 2.0 * (x * y - w * z) && c == 2.0 * (z * x + w * y)
    requires d == 2.0 * (x * y + w * z) && e == w * w + y * y - z * z - x * x && f == 2.0 * (y * z - w * x)
    ensures a * d + b * e + c * f == 0.0
  {
  }

  /** The cofactor of the first diagonal entry. */
  lemma DiagonalCofactor(w: real, x: real, y: real, z: real, a: real, e: real, f: real, h: real, i: real, n: real)
    requires a == w * w + x * x - y * y - z * z && n == w * w + x * x + y * y + z * z
    requires e == w * w + y * y - z * z - x * x && f == 2.0 * (y * z - w * x)
    requires h == 2.0 * (y * z + w * x) && i == w * w + z * z - x * x - y * y
    ensures e * i - f * h == n * a
  {
  }

  lemma DifferenceCofactor(w: real, x: real, y: real, z: real, b: real, d: real, f: real, g: real, i: real, n: real)
    requires b == 2.0 * (x * y - w * z) && n == w * w + x * x + y * y + z * z
    requires d == 2.0 * (x * y + w * z) && f == 2.0 * (y * z - w * x)
    requires g == 2.0 * (z * x - w * y) && i == w * w + z * z - x * x - y * y
    ensures f * g - d * i == n * b
  {
  }

  lemma SumCofactor(w: real, x: real, y: real, z: real, c: real, d: real, e: real, g: real, h: real, n: real)
    requires c == 2.0 * (z * x + w * y) && n == w * w + x * x + y * y + z * z
    requires d == 2.0 * (x * y + w * z) && e == w * w + y * y - z * z - x * x
    requires g == 2.0 * (z * x - w * y) && h == 2.0 * (y * z + w * x)
    ensures d * h - e * g == n * c
  {
  }

  lemma RowNorm(w: real, x: real, y: real, z: real)
    ensures DiagonalEntry(w, x, y, z) * DiagonalEntry(w, x, y, z)
          + DifferenceEntry(w, x, y, z) * DifferenceEntry(w, x, y, z)
          + SumEntry(w, z, x, y) * SumEntry(w, z, x, y)
         == SumSq(w, x, y, z) * SumSq(w, x, y, z)
  {
    NormPolynomial(w, x, y, z, DiagonalEntry(w, x, y, z), DifferenceEntry(w, x, y, z), SumEntry(w, z, x, y), SumSq(w, x, y, z));
  }

  lemma RowPair(w: real, x: real, y: real, z: real)
    ensures DiagonalEntry(w, x, y, z) * SumEntry(w, x, y, z)
          + DifferenceEntry(w, x, y, z) * DiagonalEntry(w, y, z, x)
          + SumEntry(w, z, x, y) * DifferenceEntry(w, y, z, x)
         == 0.0
  {
    PairPolynomial(w, x, y, z, DiagonalEntry(w, x, y, z), DifferenceEntry(w, x, y, z), SumEntry(w, z, x, y),
                   SumEntry(w, x, y, z), DiagonalEntry(w, y, z, x), DifferenceEntry(w, y, z, x));
  }

  lemma CofactorX(w: real, x: real, y: real, z: real)
    ensures DiagonalEntry(w, y, z, x) * DiagonalEntry(w, z, x, y) - DifferenceEntry(w, y, z, x) * SumEntry(w, y, z, x)
         == SumSq(w, x, y, z) * DiagonalEntry(w, x, y, z)
  {
    DiagonalCofactor(w, x, y, z, DiagonalEntry(w, x, y, z), DiagonalEntry(w, y, z, x), DifferenceEntry(w, y, z, x),
                     SumEntry(w, y, z, x), DiagonalEntry(w, z, x, y), SumSq(w, x, y, z));
  }

  lemma CofactorY(w: real, x: real, y: real, z: real)
    ensures DifferenceEntry(w, y, z, x) * DifferenceEntry(w, z, x, y) - SumEntry(w, x, y, z) * DiagonalEntry(w, z, x, y)
         == SumSq(w, x, y, z) * DifferenceEntry(w, x, y, z)
  {
    DifferenceCofactor(w, x, y, z, DifferenceEntry(w, x, y, z), SumEntry(w, x, y, z), DifferenceEntry(w, y, z, x),
                       DifferenceEntry(w, z, x, y), DiagonalEntry(w, z, x, y), SumSq(w, x, y, z));
  }

  lemma CofactorZ(w: real, x: real, y: real, z: real)
    ensures SumEntry(w, x, y, z) * SumEntry(w, y, z, x) - DiagonalEntry(w, y, z, x) * DifferenceEntry(w, z, x, y)
         == SumSq(w, x, y, z) * SumEntry(w, z, x, y)
  {
    SumCofactor(w, x, y, z, SumEntry(w, z, x, y), SumEntry(w, x, y, z), DiagonalEntry(w, y, z, x),
                DifferenceEntry(w, z, x, y), SumEntry(w, y, z, x), SumSq(w, x, y, z));
  }

  lemma RowNorms(q: Quat, m: Mat3)
    requires m == ScaledRotation(q)
    ensures Dot(m.r0, m.r0) == Dot(m.r1, m.r1) == Dot(m.r2, m.r2) == NormSq(q) * NormSq(q)
  {
    hide DiagonalEntry, DifferenceEntry, SumEntry, SumSq;
    RowNorm(q.w, q.x, q.y, q.z);
    RowNorm(q.w, q.y, q.z, q.x);
    RowNorm(q.w, q.z, q.x, q.y);
    SumSqCyclic(q.w, q.x, q.y, q.z);
    SumSqCyclic(q.w, q.y, q.z, q.x);
  }

  lemma RowPairs(q: Quat, m: Mat3)
    requires m == ScaledRotation(q)
    ensures Dot(m.r0, m.r1) == Dot(m.r1, m.r2) == Dot(m.r2, m.r0) == 0.0
  {
    hide DiagonalEntry, DifferenceEntry, SumEntry;
    RowPair(q.w, q.x, q.y, q.z);
    RowPair(q.w, q.y, q.z, q.x);
    RowPair(q.w, q.z, q.x, q.y);
  }

  lemma RightHanded(q: Quat, m: Mat3)
    requires m == ScaledRotation(q)
    ensures var c := Cross(m.r1, m.r2);
            c.x == NormSq(q) * m.r0.x && c.y == NormSq(q) * m.r0.y && c.z == NormSq(q) * m.r0.z
  {
    hide DiagonalEntry, DifferenceEntry, SumEntry, SumSq;
    CofactorX(q.w, q.x, q.y, q.z);
    CofactorY(q.w, q.x, q.y, q.z);
    CofactorZ(q.w, q.x, q.y, q.z);
  }

  lemma DotScale(k: real, u: Vec3, v: Vec3)
    ensures Dot(u, Scale(k, v)) == k * Dot(u, v)
    ensures Dot(Scale(k, u), Scale(k, v)) == (k * k) * Dot(u, v)
  {
  }

  /** Rows of squared length n * n, divided by n, become unit rows; orthogonal rows stay so. */
  lemma NormalizedDot(k: real, n: real, u: Vec3, v: Vec3)
    requires k * n == 1.0
    ensures Dot(u, v) == n * n ==> Dot(Scale(k, u), Scale(k, v)) == 1.0
    ensures Dot(u, v) == 0.0 ==> Dot(Scale(k, u), Scale(k, v)) == 0.0
  {
    DotScale(k, u, v);
    if Dot(u, v) == n * n {
      UnitSquare(k, n);
    }
  }

  lemma UnitSquare(k: real, n: real)
    requires k * n == 1.0
    ensures (k * k) * (n * n) == 1.0
  {
    assert (k * k) * (n * n) == (k * n) * (k * n);
  }

  lemma NormalizedCross(k: real, n: real, u: Vec3, v: Vec3, w: Vec3)
    requires k * n == 1.0
    requires Cross(u, v) == Vec3(Times(n, w.x), Times(n, w.y), Times(n, w.z))
    ensures Cross(Scale(k, u), Scale(k, v)) == Scale(k, w)
  {
    hide Cross, Minor, Scale, Times;
    var c, su, sv, sw := Cross(u, v), Scale(k, u), Scale(k, v), Scale(k, w);
    CrossByMinors(u, v);
    CrossByMinors(su, sv);
    ScaleByTimes(k, u);
    ScaleByTimes(k, v);
    ScaleByTimes(k, w);
    NormalizedMinor(k, n, u.y, u.z, v.y, v.z, su.y, su.z, sv.y, sv.z, c.x, w.x, sw.x);
    NormalizedMinor(k, n, u.z, u.x, v.z, v.x, su.z, su.x, sv.z, sv.x, c.y, w.y, sw.y);
    NormalizedMinor(k, n, u.x, u.y, v.x, v.y, su.x, su.y, sv.x, sv.y, c.z, w.z, sw.z);
  }

  lemma NormalizedMinor(k: real, n: real, a: real, b: real, c: real, d: real,
                        ka: real, kb: real, kc: real, kd: real, e: real, w: real, kw: real)
    requires k * n == 1.0 && ka == Times(k, a) && kb == Times(k, b) && kc == Times(k, c) && kd == Times(k, d) && kw == Times(k, w)
    requires e == Minor(a, b, c, d) == Times(n, w)
    ensures Minor(ka, kb, kc, kd) == kw
  {
    ScaledProduct(k, a, d, ka, kd);
    ScaledProduct(k, b, c, kb, kc);
    var ad, bc := a * d, b * c;
    assert (k * k) * ad - (k * k) * bc == (k * k) * (ad - bc);
    assert (k * k) * (n * w) == (k * n) * (k * w);
  }

  lemma ScaledProduct(k: real, a: real, d: real, ka: real, kd: real)
    requires ka == k * a && kd == k * d
    ensures ka * kd == (k * k) * (a * d)
  {
  }

  lemma RotationRowsOrthonormal(q: Quat)
    requires NormSq(q) > 0.0
    ensures Mul(RotationOf(q), Transpose(RotationOf(q))) == IDENTITY_MATRIX
    ensures Det(RotationOf(q)) == 1.0
  {
    hide NormSq, ScaledRotation, Dot, Cross, Scale, Mul, Transpose;
    var n, m, r := NormSq(q), ScaledRotation(q), RotationOf(q);
    var k := 1.0 / n;
    RowNorms(q, m);
    RowPairs(q, m);
    RightHanded(q, m);
    NormalizedDot(k, n, m.r0, m.r0);
    NormalizedDot(k, n, m.r1, m.r1);
    NormalizedDot(k, n, m.r2, m.r2);
    NormalizedDot(k, n, m.r0, m.r1);
    NormalizedDot(k, n, m.r1, m.r2);
    NormalizedDot(k, n, m.r2, m.r0);
    NormalizedCross(k, n, m.r1, m.r2, m.r0);
    OrthonormalRows(r);
  }

  lemma OrthonormalRows(m: Mat3)
    requires Dot(m.r0, m.r0) == Dot(m.r1, m.r1) == Dot(m.r2, m.r2) == 1.0
    requires Dot(m.r0, m.r1) == Dot(m.r1, m.r2) == Dot(m.r2, m.r0) == 0.0
    ensures Mul(m, Transpose(m)) == IDENTITY_MATRIX
  {
    DotCommutes(m.r0, m.r1);
    DotCommutes(m.r1, m.r2);
    DotCommutes(m.r2, m.r0);
    assert Transpose(Transpose(m)) == m;
  }

  lemma RotationOfIsRotation(q: Quat)
    requires NormSq(q) > 0.0
    ensures IsRotation(RotationOf(q))
  {
    hide NormSq, ScaledRotation, Scale, Mul, Det;
    ConjugateTransposes(q);
    RotationRowsOrthonormal(q);
    RotationRowsOrthonormal(Conjugate(q));
    ScaleTranspose(1.0 / NormSq(q), ScaledRotation(q));
    assert Transpose(Transpose(RotationOf(q))) == RotationOf(q);
  }

  lemma ScaleTranspose(k: real, m: Mat3)
    ensures ScaleMatrix(k, Transpose(m)) == Transpose(ScaleMatrix(k, m))
  {
    hide Scale, Times;
    var t := Transpose(m);
    ScaleByTimes(k, m.r0);
    ScaleByTimes(k, m.r1);
    ScaleByTimes(k, m.r2);
    ScaleByTimes(k, t.r0);
    ScaleByTimes(k, t.r1);
    ScaleByTimes(k, t.r2);
  }

  /** Every quaternion, normalized or not, yields a proper rigid motion. */
  lemma PoseToIsometryRigid(pose: Pose)
    ensures IsRigid(PoseToIsometry(pose))
    ensures PoseToIsometry(pose).translation == pose.position
  {
    if NormSq(pose.orientation) > 0.000001 {
      RotationOfIsRotation(pose.orientation);
    }
  }

  lemma RotationScaleInvariant(q: Quat, k: real)
    requires NormSq(q) > 0.0 && k != 0.0
    ensures 0.0 < NormSq(ScaleQuat(k, q)) == (k * k) * NormSq(q)
    ensures RotationOf(ScaleQuat(k, q)) == RotationOf(q)
  {
    hide NormSq, ScaledRotation, ScaleMatrix, ScaleQuat;
    var kk := k * k;
    SquarePositive(k, kk);
    Positive(kk, NormSq(q), kk * NormSq(q));
    ScaledQuaternion(k, kk, q);
    CancelScale(kk, NormSq(q), ScaledRotation(q), ScaledRotation(ScaleQuat(k, q)), NormSq(ScaleQuat(k, q)));
  }

  lemma ScaledEntries(k: real, kk: real, w: real, x: real, y: real, z: real, w': real, x': real, y': real, z': real)
    requires kk == k * k && w' == k * w && x' == k * x && y' == k * y && z' == k * z
    ensures DiagonalEntry(w', x', y', z') == kk * DiagonalEntry(w, x, y, z)
    ensures DifferenceEntry(w', x', y', z') == kk * DifferenceEntry(w, x, y, z)
    ensures SumEntry(w', x', y', z') == kk * SumEntry(w, x, y, z)
    ensures SumSq(w', x', y', z') == kk * SumSq(w, x, y, z)
  {
    var ww, xx, yy, zz, xy, wz := w * w, x * x, y * y, z * z, x * y, w * z;
    ScaledPair(k, kk, w, w);
    ScaledPair(k, kk, x, x);
    ScaledPair(k, kk, y, y);
    ScaledPair(k, kk, z, z);
    ScaledPair(k, kk, x, y);
    ScaledPair(k, kk, w, z);
    assert kk * (ww + xx - yy - zz) == kk * ww + kk * xx - kk * yy - kk * zz;
    assert kk * (ww + xx + yy + zz) == kk * ww + kk * xx + kk * yy + kk * zz;
    assert kk * (2.0 * (xy - wz)) == 2.0 * (kk * xy - kk * wz);
    assert kk * (2.0 * (xy + wz)) == 2.0 * (kk * xy + kk * wz);
  }

  lemma ScaledPair(k: real, kk: real, a: real, b: real)
    requires kk == k * k
    ensures (k * a) * (k * b) == kk * (a * b)
  {
  }

  lemma ScaledQuaternion(k: real, kk: real, q: Quat)
    requires kk == k * k
    ensures NormSq(ScaleQuat(k, q)) == kk * NormSq(q)
    ensures ScaledRotation(ScaleQuat(k, q)) == ScaleMatrix(kk, ScaledRotation(q))
  {
    hide DiagonalEntry, DifferenceEntry, SumEntry, SumSq;
    var s := ScaleQuat(k, q);
    ScaledEntries(k, kk, q.w, q.x, q.y, q.z, s.w, s.x, s.y, s.z);
    ScaledEntries(k, kk, q.w, q.y, q.z, q.x, s.w, s.y, s.z, s.x);
    ScaledEntries(k, kk, q.w, q.z, q.x, q.y, s.w, s.z, s.x, s.y);
    ScaledMatrixFrom(kk, q, s);
  }

  lemma ScaledMatrixFrom(kk: real, q: Quat, s: Quat)
    requires DiagonalEntry(s.w, s.x, s.y, s.z) == kk * DiagonalEntry(q.w, q.x, q.y, q.z)
    requires DiagonalEntry(s.w, s.y, s.z, s.x) == kk * DiagonalEntry(q.w, q.y, q.z, q.x)
    requires DiagonalEntry(s.w, s.z, s.x, s.y) == kk * DiagonalEntry(q.w, q.z, q.x, q.y)
    requires DifferenceEntry(s.w, s.x, s.y, s.z) == kk * DifferenceEntry(q.w, q.x, q.y, q.z)
    requires DifferenceEntry(s.w, s.y, s.z, s.x) == kk * DifferenceEntry(q.w, q.y, q.z, q.x)
    requires DifferenceEntry(s.w, s.z, s.x, s.y) == kk * DifferenceEntry(q.w, q.z, q.x, q.y)
    requires SumEntry(s.w, s.x, s.y, s.z) == kk * SumEntry(q.w, q.x, q.y, q.z)
    requires SumEntry(s.w, s.y, s.z, s.x) == kk * SumEntry(q.w, q.y, q.z, q.x)
    requires SumEntry(s.w, s.z, s.x, s.y) == kk * SumEntry(q.w, q.z, q.x, q.y)
    ensures ScaledRotation(s) == ScaleMatrix(kk, ScaledRotation(q))
  {
    hide DiagonalEntry, DifferenceEntry, SumEntry;
    var m, t := ScaledRotation(q), ScaledRotation(s);
    ScaledRow(kk, m.r0, t.r0);
    ScaledRow(kk, m.r1, t.r1);
    ScaledRow(kk, m.r2, t.r2);
  }

  lemma ScaledRow(kk: real, u: Vec3, v: Vec3)
    requires v.x == kk * u.x && v.y == kk * u.y && v.z == kk * u.z
    ensures v == Scale(kk, u)
  {
  }

  lemma ScaleTwice(a: real, b: real, v: Vec3)
    ensures Scale(a, Scale(b, v)) == Scale(a * b, v)
  {
    VecEq(Scale(a, Scale(b, v)), Scale(a * b, v));
  }

  lemma CancelScale(kk: real, n: real, m: Mat3, m': Mat3, n': real)
    requires kk > 0.0 && n > 0.0 && n' == kk * n > 0.0 && m' == ScaleMatrix(kk, m)
    ensures ScaleMatrix(1.0 / n', m') == ScaleMatrix(1.0 / n, m)
  {
    hide Scale;
    var k := 1.0 / n';
    assert k * kk == 1.0 / n by {
      assert (k * kk) * n == k * n';
    }
    ScaleTwice(k, kk, m.r0);
    ScaleTwice(k, kk, m.r1);
    ScaleTwice(k, kk, m.r2);
  }

  lemma EqualFactor(k: real, n: real, d: real)
    requires k * n == 1.0 && k * d == 1.0
    ensures d == n
  {
    assert d == (k * n) * d == n * (k * d);
  }

  lemma DiagonalDeficit(w: real, x: real, y: real, z: real)
    ensures DiagonalEntry(w, x, y, z) == SumSq(w, x, y, z) <==> y == 0.0 && z == 0.0
  {
    var yy, zz := y * y, z * z;
    SquareNonNegative(y, yy);
    SquareNonNegative(z, zz);
    assert SumSq(w, x, y, z) - DiagonalEntry(w, x, y, z) == 2.0 * (yy + zz);
    if y != 0.0 {
      SquarePositive(y, yy);
    }
    if z != 0.0 {
      SquarePositive(z, zz);
    }
  }

  lemma OffDiagonalZero(w: real, x: real, y: real, z: real)
    requires x == 0.0 && y == 0.0 && z == 0.0
    ensures DifferenceEntry(w, x, y, z) == 0.0 && SumEntry(w, x, y, z) == 0.0
  {
  }

  lemma ScaledUnit(k: real, n: real, m: Mat3)
    requires k * n == 1.0 && m == Mat3(Vec3(n, 0.0, 0.0), Vec3(0.0, n, 0.0), Vec3(0.0, 0.0, n))
    ensures ScaleMatrix(k, m) == IDENTITY_MATRIX
  {
  }

  /** Only a real quaternion does not rotate. */
  lemma RotationIsIdentityIff(q: Quat)
    requires NormSq(q) > 0.0
    ensures RotationOf(q) == IDENTITY_MATRIX <==> q.x == 0.0 && q.y == 0.0 && q.z == 0.0
  {
    var n, m := NormSq(q), ScaledRotation(q);
    var k := 1.0 / n;
    assert k * n == 1.0;
    DiagonalDeficit(q.w, q.x, q.y, q.z);
    DiagonalDeficit(q.w, q.y, q.z, q.x);
    DiagonalDeficit(q.w, q.z, q.x, q.y);
    SumSqCyclic(q.w, q.x, q.y, q.z);
    SumSqCyclic(q.w, q.y, q.z, q.x);
    hide DiagonalEntry, DifferenceEntry, SumEntry, SumSq;
    if RotationOf(q) == IDENTITY_MATRIX {
      EqualFactor(k, n, m.r0.x);
      EqualFactor(k, n, m.r1.y);
    }
    if q.x == 0.0 && q.y == 0.0 && q.z == 0.0 {
      OffDiagonalZero(q.w, q.x, q.y, q.z);
      OffDiagonalZero(q.w, q.y, q.z, q.x);
      OffDiagonalZero(q.w, q.z, q.x, q.y);
      ScaledUnit(k, n, m);
    }
  }

  /**
   Scaling a quaternion by any non-zero factor (negation is the factor -1) leaves the
   isometry unchanged exactly when it does not carry the quaternion across the threshold,
   or when the quaternion is real, so that it did not rotate anyway.
   */
  lemma PoseToIsometryScale(p: Vec3, q: Quat, k: real)
    requires k != 0.0
    ensures PoseToIsometry(Pose(p, ScaleQuat(k, q))) == PoseToIsometry(Pose(p, q))
       <==> (((k * k) * NormSq(q) > 0.000001) == (NormSq(q) > 0.000001)
             || (q.x == 0.0 && q.y == 0.0 && q.z == 0.0))
    ensures NormSq(q) > 0.000001 ==> PoseToIsometry(Pose(p, ScaleQuat(-1.0, q))) == PoseToIsometry(Pose(p, q))
  {
    hide NormSq, RotationOf, ScaleQuat;
    if NormSq(q) > 0.0 {
      RotationScaleInvariant(q, k);
      RotationScaleInvariant(q, -1.0);
      RotationIsIdentityIff(q);
    } else {
      ZeroNorm(q);
      ScaledZero(k);
    }
  }

  lemma ScaledZero(k: real)
    ensures var o := Quat(0.0, 0.0, 0.0, 0.0); ScaleQuat(k, o) == o && NormSq(o) == 0.0
  {
  }

  lemma ZeroNorm(q: Quat)
    requires NormSq(q) <= 0.0
    ensures q == Quat(0.0, 0.0, 0.0, 0.0)
  {
    SumOfSquares(q.w, q.x, q.y, q.z, NormSq(q));
    SumOfSquares(q.x, q.w, q.y, q.z, NormSq(q));
    SumOfSquares(q.y, q.w, q.x, q.z, NormSq(q));
    SumOfSquares(q.z, q.w, q.x, q.y, NormSq(q));
  }

  lemma SumOfSquares(a: real, b: real, c: real, d: real, n: real)
    requires n == a * a + b * b + c * c + d * d <= 0.0
    ensures a == 0.0
  {
    var aa, bb, cc, dd := a * a, b * b, c * c, d * d;
    SquareNonNegative(b, bb);
    SquareNonNegative(c, cc);
    SquareNonNegative(d, dd);
    if a != 0.0 {
      SquarePositive(a, aa);
    }
  }

  lemma SquareNonNegative(a: real, aa: real)
    requires aa == a * a
    ensures aa >= 0.0
  {
    if a != 0.0 {
      SquarePositive(a, aa);
    }
  }

  lemma SquarePositive(a: real, aa: real)
    requires a != 0.0 && aa == a * a
    ensures aa > 0.0
  {
    var b := if a < 0.0 then -a else a;
    Positive(b, b, aa);
  }

  lemma Positive(a: real, b: real, c: real)
    requires a > 0.0 && b > 0.0 && c == a * b
    ensures c > 0.0
  {
  }

  // ---- the rotation of a quaternion, by its definition ----

  function RealPart(pw: real, px: real, py: real, pz: real, qw: real, qx: real, qy: real, qz: real): real {
    pw * qw - px * qx - py * qy - pz * qz
  }

  function AxisPart(pw: real, px: real, py: real, pz: real, qw: real, qx: real, qy: real, qz: real): real {
    pw * qx + px * qw + py * qz - pz * qy
  }

  /** The Hamilton product. */
  function QuatMul(p: Quat, q: Quat): Quat {
    Quat(RealPart(p.w, p.x, p.y, p.z, q.w, q.x, q.y, q.z),
         AxisPart(p.w, p.x, p.y, p.z, q.w, q.x, q.y, q.z),
         AxisPart(p.w, p.y, p.z, p.x, q.w, q.y, q.z, q.x),
         AxisPart(p.w, p.z, p.x, p.y, q.w, q.z, q.x, q.y))
  }

  function Pure(v: Vec3): Quat {
    Quat(0.0, v.x, v.y, v.z)
  }

  lemma ConjugationW(q: Quat, v: Vec3)
    ensures QuatMul(QuatMul(q, Pure(v)), Conjugate(q)).w == 0.0
  {
    var u := QuatMul(q, Pure(v));
    ConjugationReal(q.w, q.x, q.y, q.z, v.x, v.y, v.z, u.w, u.x, u.y, u.z);
    hide RealPart, AxisPart;
  }

  lemma ConjugationX(q: Quat, v: Vec3)
    ensures QuatMul(QuatMul(q, Pure(v)), Conjugate(q)).x == MulVec(ScaledRotation(q), v).x
  {
    var u := QuatMul(q, Pure(v));
    ConjugationAxis(q.w, q.x, q.y, q.z, v.x, v.y, v.z, u.w, u.x, u.y, u.z);
    hide DiagonalEntry, DifferenceEntry, SumEntry, RealPart, AxisPart;
  }

  /** Renaming the axes cyclically renames products and rotations alike. */
  function TurnQuat(q: Quat): Quat {
    Quat(q.w, q.y, q.z, q.x)
  }

  function TurnVec(v: Vec3): Vec3 {
    Vec3(v.y, v.z, v.x)
  }

  lemma TurnedProduct(p: Quat, q: Quat)
    ensures QuatMul(TurnQuat(p), TurnQuat(q)) == TurnQuat(QuatMul(p, q))
  {
    RealPartCyclic(p.w, p.x, p.y, p.z, q.w, q.x, q.y, q.z);
    hide RealPart, AxisPart;
  }

  lemma RealPartCyclic(pw: real, px: real, py: real, pz: real, qw: real, qx: real, qy: real, qz: real)
    ensures RealPart(pw, py, pz, px, qw, qy, qz, qx) == RealPart(pw, px, py, pz, qw, qx, qy, qz)
  {
  }

  lemma TurnedRotation(q: Quat, v: Vec3)
    ensures MulVec(ScaledRotation(TurnQuat(q)), TurnVec(v)) == TurnVec(MulVec(ScaledRotation(q), v))
    ensures Pure(TurnVec(v)) == TurnQuat(Pure(v)) && Conjugate(TurnQuat(q)) == TurnQuat(Conjugate(q))
  {
    hide DiagonalEntry, DifferenceEntry, SumEntry;
  }

  lemma ConjugationTurned(q: Quat, v: Vec3)
    ensures QuatMul(QuatMul(TurnQuat(q), Pure(TurnVec(v))), Conjugate(TurnQuat(q)))
         == TurnQuat(QuatMul(QuatMul(q, Pure(v)), Conjugate(q)))
  {
    TurnedRotation(q, v);
    TurnedProduct(q, Pure(v));
    TurnedProduct(QuatMul(q, Pure(v)), Conjugate(q));
    hide QuatMul, TurnQuat, Conjugate, Pure, TurnVec;
  }

  /** The matrix rotates a vector the way the quaternion does: q v q* = |q|^2 R v. */
  lemma RotationIsConjugation(q: Quat, v: Vec3)
    ensures QuatMul(QuatMul(q, Pure(v)), Conjugate(q)) == Pure(MulVec(ScaledRotation(q), v))
    ensures NormSq(q) > 0.0 ==> MulVec(ScaledRotation(q), v) == Scale(NormSq(q), MulVec(RotationOf(q), v))
  {
    var q1, v1 := TurnQuat(q), TurnVec(v);
    ConjugationW(q, v);
    ConjugationX(q, v);
    ConjugationX(q1, v1);
    ConjugationX(TurnQuat(q1), TurnVec(v1));
    ConjugationTurned(q, v);
    ConjugationTurned(q1, v1);
    TurnedRotation(q, v);
    TurnedRotation(q1, v1);
    if NormSq(q) > 0.0 {
      NormalizedMulVec(q, v);
    }
    hide QuatMul, MulVec, Conjugate, NormSq, RotationOf;
  }

  lemma NormalizedMulVec(q: Quat, v: Vec3)
    requires NormSq(q) > 0.0
    ensures MulVec(ScaledRotation(q), v) == Scale(NormSq(q), MulVec(RotationOf(q), v))
  {
    ScaleBack(NormSq(q), ScaledRotation(q), v);
    hide NormSq, ScaledRotation, MulVec, Scale;
  }

  lemma ScaleBack(n: real, m: Mat3, v: Vec3)
    requires n > 0.0
    ensures MulVec(m, v) == Scale(n, MulVec(ScaleMatrix(1.0 / n, m), v))
  {
    ScaleRow(n, 1.0 / n, m.r0, v);
    ScaleRow(n, 1.0 / n, m.r1, v);
    ScaleRow(n, 1.0 / n, m.r2, v);
    hide Dot;
    ScaleIs(n, MulVec(ScaleMatrix(1.0 / n, m), v), Dot(m.r0, v), Dot(m.r1, v), Dot(m.r2, v));
  }

  lemma ScaleIs(n: real, u: Vec3, x: real, y: real, z: real)
    requires Times(n, u.x) == x && Times(n, u.y) == y && Times(n, u.z) == z
    ensures Scale(n, u) == Vec3(x, y, z)
  {
  }

  lemma ScaleRow(n: real, k: real, row: Vec3, v: Vec3)
    requires n > 0.0 && k == 1.0 / n
    ensures Times(n, Dot(Scale(k, row), v)) == Dot(row, v)
  {
    DotCommutes(Scale(k, row), v);
    DotScale(k, v, row);
    DotCommutes(v, row);
    TimesBack(n, k, Dot(row, v));
    hide Dot, Scale;
  }

  lemma TimesBack(n: real, k: real, t: real)
    requires n > 0.0 && k == 1.0 / n
    ensures Times(n, k * t) == t
  {
    assert n * k == 1.0;
    assert n * (k * t) == (n * k) * t;
  }

  lemma ConjugationReal(w: real, x: real, y: real, z: real, a: real, b: real, c: real, p: real, q: real, r: real, s: real)
    requires p == RealPart(w, x, y, z, 0.0, a, b, c) && q == AxisPart(w, x, y, z, 0.0, a, b, c)
    requires r == AxisPart(w, y, z, x, 0.0, b, c, a) && s == AxisPart(w, z, x, y, 0.0, c, a, b)
    ensures RealPart(p, q, r, s, w, -x, -y, -z) == 0.0
  {
  }

  lemma ConjugationAxis(w: real, x: real, y: real, z: real, a: real, b: real, c: real, p: real, q: real, r: real, s: real)
    requires p == RealPart(w, x, y, z, 0.0, a, b, c) && q == AxisPart(w, x, y, z, 0.0, a, b, c)
    requires r == AxisPart(w, y, z, x, 0.0, b, c, a) && s == AxisPart(w, z, x, y, 0.0, c, a, b)
    ensures AxisPart(p, q, r, s, w, -x, -y, -z)
         == DiagonalEntry(w, x, y, z) * a + DifferenceEntry(w, x, y, z) * b + SumEntry(w, z, x, y) * c
  {
    ConjugationPolynomial(w, x, y, z, a, b, c, p, q, r, s);
    AxisPartConjugate(p, q, r, s, w, x, y, z);
    hide RealPart, AxisPart;
  }

  lemma AxisPartConjugate(p: real, q: real, r: real, s: real, w: real, x: real, y: real, z: real)
    ensures AxisPart(p, q, r, s, w, -x, -y, -z) == q * w - p * x - r * z + s * y
  {
    assert p * -x == -(p * x) && r * -z == -(r * z) && s * -y == -(s * y);
  }

  lemma ConjugationPolynomial(w: real, x: real, y: real, z: real, a: real, b: real, c: real, p: real, q: real, r: real, s: real)
    requires p == RealPart(w, x, y, z, 0.0, a, b, c) && q == AxisPart(w, x, y, z, 0.0, a, b, c)
    requires r == AxisPart(w, y, z, x, 0.0, b, c, a) && s == AxisPart(w, z, x, y, 0.0, c, a, b)
    ensures q * w - p * x - r * z + s * y
         == DiagonalEntry(w, x, y, z) * a + DifferenceEntry(w, x, y, z) * b + SumEntry(w, z, x, y) * c
  {
    var xa, yb, zc, wa, yc, zb, wb, za, xc, wc, xb, ya := x * a, y * b, z * c, w * a, y * c, z * b, w * b, z * a, x * c, w * c, x * b, y * a;
    Distribute(p, -xa, -yb, -zc, x);
    Distribute(q, wa, yc, -zb, w);
    Distribute(r, wb, za, -xc, z);
    Distribute(s, wc, xb, -ya, y);
    CoefficientA(w, x, y, z, a, wa, xa, za, ya);
    CoefficientB(w, x, y, z, b, zb, yb, wb, xb);
    CoefficientC(w, x, y, z, c, yc, zc, xc, wc);
  }

  lemma Distribute(s: real, a: real, b: real, c: real, k: real)
    requires s == a + b + c
    ensures s * k == a * k + b * k + c * k
  {
  }

  lemma CoefficientA(w: real, x: real, y: real, z: real, a: real, wa: real, xa: real, za: real, ya: real)
    requires wa == w * a && xa == x * a && za == z * a && ya == y * a
    ensures wa * w - (-xa) * x - za * z + (-ya) * y == DiagonalEntry(w, x, y, z) * a
  {
  }

  lemma CoefficientB(w: real, x: real, y: real, z: real, b: real, zb: real, yb: real, wb: real, xb: real)
    requires zb == z * b && yb == y * b && wb == w * b && xb == x * b
    ensures (-zb) * w - (-yb) * x - wb * z + xb * y == DifferenceEntry(w, x, y, z) * b
  {
  }

  lemma CoefficientC(w: real, x: real, y: real, z: real, c: real, yc: real, zc: real, xc: real, wc: real)
    requires yc == y * c && zc == z * c && xc == x * c && wc == w * c
    ensures yc * w - (-zc) * x - (-xc) * z + wc * y == SumEntry(w, z, x, y) * c
  {
  }
}
