/**
 The state guarded by the mutex of the scene synchronizer (`MoveitSceneSynchronizer::Data`)
 and the effect of each locked region on it, as values.

 A hash set of mesh ids has no fixed order, so the pose lists of a message are kept as maps
 from mesh id to pose; the list in the message is one enumeration of that map.
 */
module SceneStore {
  import opened Wrappers
  import opened Geometry
  import ObjectGeometry

  newtype byte = x: int | 0 <= x < 256

  type Bytes = seq<byte>

  type Solid = ObjectGeometry.SolidPrimitive

  /** Configuration, with the two foreign functions the synchronizer calls: acos and the glTF decoder. */
  datatype SyncConfig = SyncConfig(
    tfPrefix: string, stripPrefixes: seq<string>, excluded: seq<string>,
    rateHz: real, minPosition: real, minRotation: real, intervalSec: real,
    acos: real -> real, decodes: Bytes -> bool)

  datatype Transform = Transform(parent: string, child: string, translation: Vec3, rotation: Quat)

  datatype Message =
    | Add(frame: string, stamp: real, meshes: map<string, (Bytes, Pose)>, primitives: map<string, (Solid, Pose)>)
    | Move(frame: string, stamp: real, parent: string, pose: Pose, meshPoses: map<string, Pose>, primitivePoses: map<string, Pose>)
    | Remove(frame: string, stamp: real)

  datatype Store = Store(
    renderables: map<string, Bytes>,
    primitives: map<string, Solid>,
    tracked: map<string, set<string>>,
    relativePose: map<string, Pose>,
    lastPose: map<string, Pose>,
    lastTime: map<string, real>)

  const EMPTY_STORE := Store(map[], map[], map[], map[], map[], map[])

  function IdsOf(s: Store, frame: string): set<string> {
    if frame in s.tracked then s.tracked[frame] else {}
  }

  // ---- fetch: three locked regions ----

  /** `emplace`: bytes already cached are kept. */
  function CacheMesh(s: Store, id: string, bytes: Bytes): Store {
    if id in s.renderables then s else s.(renderables := s.renderables[id := bytes])
  }

  function RecordMesh(s: Store, frame: string, id: string, pose: Pose): Store {
    s.(relativePose := s.relativePose[id := pose], tracked := s.tracked[frame := IdsOf(s, frame) + {id}])
  }

  function RecordPrimitive(s: Store, frame: string, id: string, pose: Pose, solid: Solid): Store {
    RecordMesh(s.(primitives := s.primitives[id := solid]), frame, id, pose)
  }

  // ---- add ----

  function MeshPart(s: Store, ids: set<string>): map<string, (Bytes, Pose)> {
    map id | id in ids && id in s.relativePose && id in s.renderables :: (s.renderables[id], s.relativePose[id])
  }

  function PrimitivePart(s: Store, ids: set<string>): map<string, (Solid, Pose)> {
    map id | id in ids && id in s.relativePose && id !in s.renderables && id in s.primitives ::
      (s.primitives[id], s.relativePose[id])
  }

  function Decoded(cfg: SyncConfig, meshes: map<string, (Bytes, Pose)>): map<string, (Bytes, Pose)> {
    map id | id in meshes && cfg.decodes(meshes[id].0) :: meshes[id]
  }

  function AddMessage(cfg: SyncConfig, s: Store, frame: string, now: real): Message {
    Add(frame, now, Decoded(cfg, MeshPart(s, IdsOf(s, frame))), PrimitivePart(s, IdsOf(s, frame)))
  }

  /** One ADD per listed frame that is tracked; the others are skipped. */
  function AddMessages(cfg: SyncConfig, s: Store, frames: seq<string>, now: real): seq<Message> {
    if frames == [] then []
    else
      var k := |frames| - 1;
      AddMessages(cfg, s, frames[..k], now)
      + if frames[k] in s.tracked then [AddMessage(cfg, s, frames[k], now)] else []
  }

  // ---- remove ----

  function RemoveFrame(s: Store, frame: string): Store {
    s.(tracked := s.tracked - {frame}, lastPose := s.lastPose - {frame}, lastTime := s.lastTime - {frame})
  }

  // ---- update ----

  function PoseOf(t: Transform): Pose {
    Pose(t.translation, t.rotation)
  }

  function FirstMatch(transforms: seq<Transform>, frame: string): Option<Transform> {
    if transforms == [] then None
    else if transforms[0].child == frame then Some(transforms[0])
    else FirstMatch(transforms[1..], frame)
  }

  /** `min_period`: the shortest time between two moves of a frame. */
  function MinPeriod(rateHz: real): real {
    if rateHz > 0.0 then 1.0 / rateHz else 0.0
  }

  predicate Throttled(cfg: SyncConfig, s: Store, frame: string, now: real) {
    frame in s.lastTime && cfg.rateHz > 0.0 && now - s.lastTime[frame] < MinPeriod(cfg.rateHz)
  }

  /** sqrt(squared) < bound, for a non-negative squared. */
  predicate SqrtBelow(squared: real, bound: real) {
    bound > 0.0 && squared < bound * bound
  }

  function DistanceSq(a: Vec3, b: Vec3): real {
    Dot(Sub(b, a), Sub(b, a))
  }

  function QuatDot(q1: Quat, q2: Quat): real {
    q1.w * q2.w + q1.x * q2.x + q1.y * q2.y + q1.z * q2.z
  }

  /** min(1, |q1 . q2|) */
  function Alignment(q1: Quat, q2: Quat): real {
    var dot := QuatDot(q1, q2);
    var a := if dot < 0.0 then -dot else dot;
    if a < 1.0 then a else 1.0
  }

  function RotationDelta(cfg: SyncConfig, q1: Quat, q2: Quat): real {
    2.0 * cfg.acos(Alignment(q1, q2))
  }

  predicate InDeadband(cfg: SyncConfig, last: Pose, next: Pose) {
    && SqrtBelow(DistanceSq(last.position, next.position), cfg.minPosition)
    && RotationDelta(cfg, last.orientation, next.orientation) < cfg.minRotation
  }

  /** The transform to publish for a frame, if its first match is neither throttled nor in the deadband. */
  function Decide(cfg: SyncConfig, s: Store, frame: string, transforms: seq<Transform>, now: real): Option<Transform> {
    match FirstMatch(transforms, frame)
    case None => None
    case Some(t) =>
      if Throttled(cfg, s, frame, now) then None
      else if frame in s.lastPose && InDeadband(cfg, s.lastPose[frame], PoseOf(t)) then None
      else Some(t)
  }

  predicate Moves(cfg: SyncConfig, s: Store, frame: string, transforms: seq<Transform>, now: real) {
    frame in s.tracked && Decide(cfg, s, frame, transforms, now).Some?
  }

  function PosesOnly<T>(m: map<string, (T, Pose)>): map<string, Pose> {
    map id | id in m :: m[id].1
  }

  function MoveMessage(s: Store, frame: string, t: Transform, now: real): Message {
    Move(frame, now, t.parent, PoseOf(t),
         PosesOnly(MeshPart(s, IdsOf(s, frame))), PosesOnly(PrimitivePart(s, IdsOf(s, frame))))
  }

  function MovedPoses(cfg: SyncConfig, s: Store, frames: set<string>, transforms: seq<Transform>, now: real): map<string, Pose> {
    map f | f in frames && Moves(cfg, s, f, transforms, now) :: PoseOf(Decide(cfg, s, f, transforms, now).value)
  }

  function MovedTimes(cfg: SyncConfig, s: Store, frames: set<string>, transforms: seq<Transform>, now: real): map<string, real> {
    map f | f in frames && Moves(cfg, s, f, transforms, now) :: now
  }

  /** The update of some frames in closed form: every moving one of them at once. */
  function UpdateFrames(cfg: SyncConfig, s: Store, frames: set<string>, transforms: seq<Transform>, now: real): Store {
    s.(lastPose := s.lastPose + MovedPoses(cfg, s, frames, transforms, now),
       lastTime := s.lastTime + MovedTimes(cfg, s, frames, transforms, now))
  }

  /** The whole update, whatever the iteration order. */
  function AfterUpdate(cfg: SyncConfig, s: Store, transforms: seq<Transform>, now: real): Store {
    UpdateFrames(cfg, s, s.tracked.Keys, transforms, now)
  }

  function MoveMessages(cfg: SyncConfig, s: Store, order: seq<string>, transforms: seq<Transform>, now: real): seq<Message> {
    if order == [] then []
    else
      var k := |order| - 1;
      MoveMessages(cfg, s, order[..k], transforms, now)
      + if Moves(cfg, s, order[k], transforms, now)
        then [MoveMessage(s, order[k], Decide(cfg, s, order[k], transforms, now).value, now)]
        else []
  }

  /** An iteration order over a hash container: each element once. */
  ghost predicate Enumerates(order: seq<string>, elements: set<string>) {
    && (forall i, j :: 0 <= i < j < |order| ==> order[i] != order[j])
    && (forall x :: x in order <==> x in elements)
  }

  // ---- facts about the deadband ----

  /** acos, as far as it is used: decreasing on [0, 1], and zero at one. */
  ghost predicate DecreasingAcos(acos: real -> real) {
    acos(1.0) == 0.0 && forall a: real, b: real :: 0.0 <= a < b <= 1.0 ==> acos(a) > acos(b)
  }

  /**
   Re-sending the pose published last is suppressed exactly when both deltas are positive and
   the quaternion is aligned enough with itself; for a quaternion of norm at least one the
   alignment is 1, so then it is suppressed exactly when both deltas are positive.
   */
  lemma RepeatSuppressed(cfg: SyncConfig, p: Pose)
    requires DecreasingAcos(cfg.acos)
    ensures NormSq(p.orientation) >= 1.0 ==> (InDeadband(cfg, p, p) <==> cfg.minPosition > 0.0 && cfg.minRotation > 0.0)
    ensures InDeadband(cfg, p, p) <==>
              cfg.minPosition > 0.0 && 2.0 * cfg.acos(Alignment(p.orientation, p.orientation)) < cfg.minRotation
  {
    hide DistanceSq, Alignment, NormSq;
    SelfDistance(p.position);
    if cfg.minPosition > 0.0 {
      Positive(cfg.minPosition, cfg.minPosition, cfg.minPosition * cfg.minPosition);
    }
    if NormSq(p.orientation) >= 1.0 {
      SelfAlignment(p.orientation);
    }
  }

  lemma SelfDistance(v: Vec3)
    ensures DistanceSq(v, v) == 0.0
  {
  }

  lemma SelfAlignment(q: Quat)
    requires NormSq(q) >= 1.0
    ensures Alignment(q, q) == 1.0
  {
  }

  /** A quaternion and its negation are the same rotation to the deadband. */
  lemma AlignmentNegation(q1: Quat, q2: Quat)
    ensures Alignment(q1, ScaleQuat(-1.0, q2)) == Alignment(q1, q2) == Alignment(q2, q1)
  {
    DotNegation(q1, q2);
    DotNegation(q2, q1);
    hide QuatDot;
  }

  lemma DotNegation(q1: Quat, q2: Quat)
    ensures QuatDot(q1, ScaleQuat(-1.0, q2)) == -QuatDot(q1, q2)
    ensures QuatDot(q1, q2) == QuatDot(q2, q1)
  {
  }

  /** The closer aligned of two orientations has the smaller delta. */
  lemma DeltaMonotone(cfg: SyncConfig, q: Quat, q1: Quat, q2: Quat)
    requires DecreasingAcos(cfg.acos) && Alignment(q, q1) < Alignment(q, q2)
    ensures RotationDelta(cfg, q, q2) < RotationDelta(cfg, q, q1)
  {
  }
}
