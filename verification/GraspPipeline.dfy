/**
 Planning grasps for one candidate (`grasp_planning_pipeline.cpp`): what is asked of the MTC
 planner, which of its solutions become grasps, and which error is reported when none does.

 The planner, the robot model and the replies of the planning scene are inputs.
 */
module GraspPipeline {
  import opened Wrappers
  import opened Geometry
  import opened GraspMessages
  import opened ObjectGeometry
  import Boxes = BoxGraspPoses
  import Names
  import Ranking
  import TargetResolution
  import TimeBudget

  // ---- solutions of the MTC planner ----

  /** The state a stage starts from: arm positions, and the pose of the tool frame in the world. */
  datatype StartState = StartState(armPositions: seq<real>, toolPose: Isometry)

  /** A solution tree: a sequence has the solutions it is made of below it, a wrapper the wrapped one. */
  datatype SubSolution = SubSolution(creator: string, children: seq<SubSolution>, start: Option<StartState>)

  /** The grasp pose in its frame, and that frame in the world. */
  datatype Target = Target(frame: string, pose: Pose, worldTFrame: Isometry)

  /**
   A complete solution. It is unusable if it failed or has no end scene; it has no target if the
   property is missing or any lookup throws.
   */
  datatype Solution = Solution(
    usable: bool, target: Option<Target>, cost: Double, armPositions: seq<real>,
    root: SubSolution, inverseKinematics: Option<Isometry> -> Option<seq<real>>)

  const APPROACH_STAGE := "approach object"

  // ---- the approach stage of a solution ----

  function FindSubSolution(s: SubSolution, stage: string): Option<SubSolution> {
    if s.creator == stage then Some(s) else FindAmong(s.children, stage)
  }

  function FindAmong(ss: seq<SubSolution>, stage: string): Option<SubSolution> {
    if ss == [] then None
    else
      var first := FindSubSolution(ss[0], stage);
      if first.Some? then first else FindAmong(ss[1..], stage)
  }

  /** All solutions of a tree, parents before children, left before right. */
  function Preorder(s: SubSolution): seq<SubSolution> {
    [s] + PreorderAll(s.children)
  }

  function PreorderAll(ss: seq<SubSolution>): seq<SubSolution> {
    if ss == [] then [] else Preorder(ss[0]) + PreorderAll(ss[1..])
  }

  function FirstBy(ss: seq<SubSolution>, stage: string): Option<SubSolution> {
    if ss == [] then None
    else if ss[0].creator == stage then Some(ss[0])
    else FirstBy(ss[1..], stage)
  }

  lemma {:induction false} FirstByConcat(a: seq<SubSolution>, b: seq<SubSolution>, stage: string)
    ensures FirstBy(a + b, stage) == if FirstBy(a, stage).Some? then FirstBy(a, stage) else FirstBy(b, stage)
  {
    if a == [] {
      assert a + b == b;
    } else {
      FirstByConcat(a[1..], b, stage);
      assert (a + b)[1..] == a[1..] + b;
    }
  }

  /** The search finds the first solution of the stage in the whole tree, wherever it is. */
  lemma {:induction false} FindIsFirst(s: SubSolution, stage: string)
    ensures FindSubSolution(s, stage) == FirstBy(Preorder(s), stage)
  {
    FindAmongIsFirst(s.children, stage);
    FirstByConcat([s], PreorderAll(s.children), stage);
    assert [s][1..] == [];
  }

  lemma {:induction false} FindAmongIsFirst(ss: seq<SubSolution>, stage: string)
    ensures FindAmong(ss, stage) == FirstBy(PreorderAll(ss), stage)
  {
    if ss != [] {
      FindIsFirst(ss[0], stage);
      FindAmongIsFirst(ss[1..], stage);
      FirstByConcat(Preorder(ss[0]), PreorderAll(ss[1..]), stage);
    }
  }

  // ---- one solution, one grasp ----

  datatype Context = Context(index: nat, targetId: string, armJoints: seq<string>, retract: Double)

  /** `max(0, cost)`, where not-a-number counts as zero; the quality of an infinite cost is zero. */
  function Quality(cost: Double): (q: real)
    ensures 0.0 <= q <= 1.0
  {
    match cost
    case Finite(c) => if 0.0 < c then 1.0 / (1.0 + c) else 1.0
    case PosInf => 0.0
    case NegInf => 1.0
    case NaN => 1.0
  }

  /** The grasp pose in the world, backed off; an infinite distance leaves no finite pose. */
  function Fallback(t: Target, retract: Double): Option<Isometry> {
    if retract.Finite? then
      Some(Compose(Compose(t.worldTFrame, PoseToIsometry(t.pose)), Translation(Boxes.BackOff(retract.r))))
    else None
  }

  function InFrame(worldTFrame: Isometry, world: Option<Isometry>): Option<Isometry> {
    match world
    case None => None
    case Some(pose) => Some(Compose(Inverse(worldTFrame), pose))
  }

  function ApproachStart(s: Solution): Option<StartState> {
    match FindSubSolution(s.root, APPROACH_STAGE)
    case None => None
    case Some(approach) => approach.start
  }

  /** The start of the approach: arm positions, and the tool pose in the frame of the object. */
  function PreGrasp(s: Solution, t: Target, retract: Double): Option<(seq<real>, Option<Isometry>)> {
    match ApproachStart(s)
    case Some(start) => Some((start.armPositions, InFrame(t.worldTFrame, Some(start.toolPose))))
    case None =>
      match s.inverseKinematics(Fallback(t, retract))
      case None => None
      case Some(positions) => Some((positions, InFrame(t.worldTFrame, Fallback(t, retract))))
  }

  /** The grasp a solution yields as the n-th of its candidate, if it yields one. */
  function GraspOf(ctx: Context, s: Solution, n: nat): Option<RankedGrasp> {
    if !s.usable || s.target.None? then None
    else
      var t := s.target.value;
      match PreGrasp(s, t, ctx.retract)
      case None => None
      case Some((positions, preGraspPose)) =>
        Some(RankedGrasp(ctx.index % UINT32, ctx.targetId, "grasp_" + Names.Decimal(n), Quality(s.cost),
                         t.frame, t.pose, preGraspPose,
                         JointState(ctx.armJoints, s.armPositions), JointState(ctx.armJoints, positions)))
  }

  /** All grasps of a list of solutions, as if there were no limit on their number. */
  function AllGrasps(ctx: Context, solutions: seq<Solution>): seq<RankedGrasp> {
    if solutions == [] then []
    else
      var k := |solutions| - 1;
      var before := AllGrasps(ctx, solutions[..k]);
      before + match GraspOf(ctx, solutions[k], |before|) case None => [] case Some(g) => [g]
  }

  lemma {:induction false} AllGraspsPrefix(ctx: Context, solutions: seq<Solution>, i: nat)
    requires i <= |solutions|
    ensures AllGrasps(ctx, solutions[..i]) <= AllGrasps(ctx, solutions)
    decreases |solutions|
  {
    hide GraspOf;
    var k := |solutions| - 1;
    if i <= k {
      AllGraspsPrefix(ctx, solutions[..k], i);
      assert solutions[..k][..i] == solutions[..i];
    } else {
      assert solutions[..i] == solutions;
    }
  }

  /** The loop over the solutions: it stops as soon as it has k grasps. */
  method CollectGrasps(ctx: Context, solutions: seq<Solution>, k: nat) returns (grasps: seq<RankedGrasp>)
    requires k > 0
    ensures grasps == Ranking.Take(k, AllGrasps(ctx, solutions))
  {
    hide GraspOf;
    grasps := [];
    for i := 0 to |solutions|
      invariant grasps == AllGrasps(ctx, solutions[..i]) && |grasps| < k
    {
      assert solutions[..i + 1][..i] == solutions[..i];
      var grasp := GraspOf(ctx, solutions[i], |grasps|);
      if grasp.None? {
        continue;
      }
      grasps := grasps + [grasp.value];
      if |grasps| >= k {
        AllGraspsPrefix(ctx, solutions, i + 1);
        return;
      }
    }
    assert solutions[..|solutions|] == solutions;
  }

  // ---- what every grasp of a candidate satisfies ----

  /** Where the grasp of a given number comes from. */
  lemma {:induction false} GraspSource(ctx: Context, solutions: seq<Solution>, j: nat) returns (i: nat)
    requires j < |AllGrasps(ctx, solutions)|
    ensures i < |solutions| && GraspOf(ctx, solutions[i], j) == Some(AllGrasps(ctx, solutions)[j])
  {
    hide GraspOf;
    var k := |solutions| - 1;
    if j < |AllGrasps(ctx, solutions[..k])| {
      i := GraspSource(ctx, solutions[..k], j);
    } else {
      i := k;
    }
  }

  /** The grasps of a candidate carry its index and its target, and are numbered without repetition. */
  lemma GraspsNumbered(ctx: Context, solutions: seq<Solution>)
    ensures forall g :: g in AllGrasps(ctx, solutions) ==> g.candidateIndex == ctx.index % UINT32 && g.targetId == ctx.targetId
    ensures forall i, j :: 0 <= i < j < |AllGrasps(ctx, solutions)| ==> AllGrasps(ctx, solutions)[i].id != AllGrasps(ctx, solutions)[j].id
  {
    var gs := AllGrasps(ctx, solutions);
    forall j | 0 <= j < |gs|
      ensures gs[j].candidateIndex == ctx.index % UINT32 && gs[j].targetId == ctx.targetId && gs[j].id == "grasp_" + Names.Decimal(j)
    {
      var i := GraspSource(ctx, solutions, j);
    }
    hide AllGrasps;
    forall i, j | 0 <= i < j < |gs|
      ensures gs[i].id != gs[j].id
    {
      if gs[i].id == gs[j].id {
        assert gs[i].id[6..] == Names.Decimal(i) && gs[j].id[6..] == Names.Decimal(j);
        Names.DecimalIsNumeral(i);
        Names.DecimalIsNumeral(j);
      }
    }
  }

  // ---- quality ----

  /** The planner delivers usable solutions with finite costs, the cheapest first. */
  ghost predicate CheapestFirst(solutions: seq<Solution>) {
    && (forall i :: 0 <= i < |solutions| && solutions[i].usable ==> solutions[i].cost.Finite?)
    && (forall i, j :: 0 <= i < j < |solutions| && solutions[i].usable && solutions[j].usable ==>
                         solutions[i].cost.r <= solutions[j].cost.r)
  }

  /** A cheaper solution has at least the quality of a dearer one, and more if its cost is not negative. */
  lemma QualityOrder(c: real, d: real)
    requires c <= d
    ensures Quality(Finite(c)) >= Quality(Finite(d))
    ensures 0.0 <= c < d ==> Quality(Finite(c)) > Quality(Finite(d))
  {
    if 0.0 < d {
      var u := if 0.0 < c then c else 0.0;
      Reciprocal(1.0 + u, 1.0 + d);
    }
  }

  lemma Reciprocal(a: real, b: real)
    requires 0.0 < a <= b
    ensures 1.0 / a >= 1.0 / b && (a < b ==> 1.0 / a > 1.0 / b)
  {
  }

  ghost predicate NoBetterThan(q: real, gs: seq<RankedGrasp>) {
    forall i :: 0 <= i < |gs| ==> gs[i].quality >= q
  }

  lemma {:induction false} EarlierBetter(ctx: Context, solutions: seq<Solution>, s: Solution)
    requires CheapestFirst(solutions + [s]) && s.usable
    ensures NoBetterThan(Quality(s.cost), AllGrasps(ctx, solutions))
  {
    forall j | 0 <= j < |AllGrasps(ctx, solutions)|
      ensures AllGrasps(ctx, solutions)[j].quality >= Quality(s.cost)
    {
      var i := GraspSource(ctx, solutions, j);
      var all := solutions + [s];
      assert all[i] == solutions[i] && all[|solutions|] == s;
      QualityOrder(solutions[i].cost.r, s.cost.r);
      hide Quality, AllGrasps;
    }
  }

  /** So the grasps of a candidate are ranked before anyone sorts them. */
  lemma {:induction false} GraspsRanked(ctx: Context, solutions: seq<Solution>)
    requires CheapestFirst(solutions)
    ensures Ranking.Ranked(AllGrasps(ctx, solutions))
  {
    if solutions != [] {
      var k := |solutions| - 1;
      var before, s := AllGrasps(ctx, solutions[..k]), solutions[k];
      assert solutions == solutions[..k] + [s];
      GraspsRanked(ctx, solutions[..k]);
      if s.usable {
        EarlierBetter(ctx, solutions[..k], s);
        hide Quality, PreGrasp, CheapestFirst;
        AppendRanked(before, AllGrasps(ctx, solutions), Quality(s.cost));
      }
    }
  }

  lemma AppendRanked(before: seq<RankedGrasp>, after: seq<RankedGrasp>, q: real)
    requires Ranking.Ranked(before) && NoBetterThan(q, before)
    requires after == before || (after != [] && after[..|after| - 1] == before && after[|after| - 1].quality == q)
    ensures Ranking.Ranked(after)
  {
  }

  // ---- a planner that does not answer in order ----

  /** A plain solution of the given cost, without an approach stage, whose pre-grasp pose is reachable. */
  function PlainSolution(cost: real): Solution {
    Solution(true, Some(Target("object", DEFAULT_POSE, IDENTITY)), Finite(cost), [],
             SubSolution("grasp_generator_task", [], None), pose => Some([]))
  }

  lemma PlainGrasp(ctx: Context, cost: real, n: nat)
    ensures GraspOf(ctx, PlainSolution(cost), n).Some? && GraspOf(ctx, PlainSolution(cost), n).value.quality == Quality(Finite(cost))
  {
    hide Fallback, InFrame;
  }

  /**
   The dear solution first: with room for one grasp the candidate keeps the worse one, and the
   quality of its best grasp is lost.
   */
  lemma DearFirstLoses(ctx: Context, cheap: real, dear: real)
    requires 0.0 <= cheap < dear
    ensures var all := AllGrasps(ctx, [PlainSolution(dear), PlainSolution(cheap)]);
            && |all| == 2 && all[0].quality < all[1].quality
            && !Ranking.Lossless(1, [all])
  {
    var s, t := PlainSolution(dear), PlainSolution(cheap);
    PlainGrasp(ctx, dear, 0);
    PlainGrasp(ctx, cheap, 1);
    QualityOrder(cheap, dear);
    hide GraspOf, Quality, PlainSolution;
    assert [s, t][..1] == [s] && [s][..0] == [];
    assert AllGrasps(ctx, [s]) == [] + [GraspOf(ctx, s, 0).value];
    var all := AllGrasps(ctx, [s, t]);
    assert all == AllGrasps(ctx, [s]) + [GraspOf(ctx, t, 1).value];
    hide AllGrasps;
    Ranking.OneListLossless(1, all);
    assert Ranking.Take(1, all)[0] == all[0] && Ranking.Drop(1, all)[0] == all[1];
  }

  // ---- the pre-grasp pose ----

  /** What a grasp without an approach state reports. */
  lemma FallbackGrasp(ctx: Context, s: Solution, n: nat)
    requires GraspOf(ctx, s, n).Some? && ApproachStart(s).None?
    ensures var g, t := GraspOf(ctx, s, n).value, s.target.value;
            g.graspPose == t.pose && g.preGraspPose == InFrame(t.worldTFrame, Fallback(t, ctx.retract))
  {
    hide Fallback, InFrame, ApproachStart, Quality;
  }

  /**
   Without an approach state the pre-grasp pose is the grasp pose backed off by the retract
   distance, wherever the object is in the world; for an infinite distance there is no such pose.
   */
  lemma FallbackPreGrasp(ctx: Context, s: Solution, n: nat)
    requires GraspOf(ctx, s, n).Some? && ApproachStart(s).None? && IsRigid(s.target.value.worldTFrame)
    ensures var g := GraspOf(ctx, s, n).value;
            g.preGraspPose == if ctx.retract.Finite?
                              then Some(Compose(PoseToIsometry(g.graspPose), Translation(Boxes.BackOff(ctx.retract.r))))
                              else None
  {
    FallbackGrasp(ctx, s, n);
    hide GraspOf, Compose, PoseToIsometry, Translation, Inverse, Boxes.BackOff, IsRigid, ApproachStart;
    if ctx.retract.Finite? {
      var t := s.target.value;
      Boxes.FallbackPreGraspIndependentOfWorld(t.worldTFrame, PoseToIsometry(t.pose), ctx.retract.r);
    }
  }

  /** And if the grasp pose is one the box generator spawned, a finite pre-grasp point is outside the box. */
  lemma FallbackPreGraspOutsideBox(ctx: Context, s: Solution, n: nat, r: Boxes.Request, surfaces: seq<int>, p: Boxes.Spawned)
    requires GraspOf(ctx, s, n).Some? && ApproachStart(s).None? && IsRigid(s.target.value.worldTFrame) && ctx.retract.Positive()
    requires IsRigid(r.center) && Boxes.IsUnit(r.step)
    requires p in Boxes.PosesOf(r, surfaces) && PoseToIsometry(s.target.value.pose) == p.target
    ensures var pre := GraspOf(ctx, s, n).value.preGraspPose;
            (pre.Some? <==> ctx.retract.Finite?) && (pre.Some? ==> !Boxes.InBox(r.center, r.dims, pre.value.translation))
  {
    FallbackGrasp(ctx, s, n);
    FallbackPreGrasp(ctx, s, n);
    hide GraspOf, ApproachStart, PoseToIsometry, IsRigid, Boxes.InBox, Boxes.PosesOf, Boxes.IsUnit, Fallback, InFrame;
    Boxes.EveryPoseSound(r, surfaces);
    assert Boxes.SoundPose(r, p);
    if ctx.retract.Finite? {
      BackOffTranslation(p.target, ctx.retract.r);
    }
    hide Compose, Translation, Boxes.BackOff;
  }

  lemma BackOffTranslation(t: Isometry, d: real)
    ensures Compose(t, Translation(Boxes.BackOff(d))).translation == Apply(t, Boxes.BackOff(d))
  {
  }

  // ---- planning for one candidate ----

  /** A joint model group: its active joints, and the joint positions of its named states. */
  datatype Group = Group(joints: seq<string>, states: map<string, map<string, real>>)

  datatype Robot = Robot(endEffectors: set<string>, links: set<string>, groups: map<string, Group>)

  datatype Task = Task(
    targetId: string, group: string, endEffector: string, ikFrame: string, timeoutSec: real,
    dims: Vec3, center: Isometry, surfaces: seq<int>, numRotations: int, retract: Double, maxSolutions: nat)

  /** What the MTC planner answers: an exception, no plan, or solutions. */
  datatype PlanOutcome = Threw | NoPlan | Found(solutions: seq<Solution>)

  /** An exception after planning: while the grasp messages are prepared, or when the best solution is published. */
  datatype Interrupt = Never | WhilePreparing | WhilePublishing

  /** Everything outside the pipeline: the node, the two replies of the planning scene, the model, the planner. */
  datatype Env = Env(
    nodeUp: bool, sceneIds: seq<string>, sceneObjects: Option<seq<CollisionObject>>,
    robot: Option<Robot>, plan: Task -> PlanOutcome, interrupt: Interrupt)

  function OrDefault(name: string, fallback: string): string {
    if name == "" then fallback else name
  }

  function EndEffector(goal: Goal): string {
    OrDefault(goal.endEffectorGroup, "hand")
  }

  function IkFrame(goal: Goal): string {
    OrDefault(goal.toolFrame, "hande_tcp")
  }

  function Retract(goal: Goal): (d: Double)
    ensures d.Positive()
  {
    if goal.retractDistM.Positive() then goal.retractDistM else Finite(0.05)
  }

  function Rotations(goal: Goal): (n: int)
    ensures n > 0
  {
    if goal.numRotations > 0 then goal.numRotations else 4
  }

  function Surfaces(goal: Goal): seq<int> {
    if Boxes.ValidOnly(goal.surfaces) == [] then Boxes.ALL_SURFACES else Boxes.ValidOnly(goal.surfaces)
  }

  predicate ExplicitDims(c: Candidate) {
    c.dims.x > 0.0 && c.dims.y > 0.0 && c.dims.z > 0.0
  }

  ghost predicate Listed(objects: Option<seq<CollisionObject>>, id: string) {
    objects.Some? && exists i :: 0 <= i < |objects.value| && objects.value[i].id == id
  }

  function FirstListed(objects: seq<CollisionObject>, id: string): Option<CollisionObject> {
    if objects == [] then None
    else if objects[0].id == id then Some(objects[0])
    else FirstListed(objects[1..], id)
  }

  /** The box to grasp: as given with the candidate, or around the first scene object of that id. */
  ghost function BoxFor(c: Candidate, targetId: string, objects: Option<seq<CollisionObject>>): Option<ObjectBoundingBox> {
    if ExplicitDims(c) then Some(ObjectBoundingBox(c.dims, PoseToIsometry(c.center)))
    else if objects.None? then None
    else
      match FirstListed(objects.value, targetId)
      case None => None
      case Some(obj) => BoundingBoxOf(obj)
  }

  function TaskFor(goal: Goal, targetId: string, box: ObjectBoundingBox): Task {
    Task(targetId, goal.groupName, EndEffector(goal), IkFrame(goal),
         TimeBudget.CandidateTimeoutSec(goal.planningTimeoutSec, |goal.candidates|),
         box.dimensions, box.center, Surfaces(goal), Rotations(goal), Retract(goal), MaxGrasps(goal.maxNumGrasps))
  }

  predicate KnowsTool(goal: Goal, robot: Robot) {
    EndEffector(goal) in robot.endEffectors && IkFrame(goal) in robot.links
  }

  predicate KnowsGroups(goal: Goal, robot: Robot) {
    goal.groupName in robot.groups && EndEffector(goal) in robot.groups
  }

  /** The named state gives a position to each of the group's joints. */
  predicate StateCovers(group: Group, state: string) {
    state in group.states && forall j :: j in group.joints ==> j in group.states[state]
  }

  predicate GripperReady(goal: Goal, robot: Robot)
    requires KnowsGroups(goal, robot)
  {
    StateCovers(robot.groups[EndEffector(goal)], "open") && StateCovers(robot.groups[EndEffector(goal)], "closed")
  }

  function ContextFor(goal: Goal, targetId: string, index: nat, robot: Robot): Context
    requires KnowsGroups(goal, robot)
  {
    Context(index, targetId, robot.groups[goal.groupName].joints, Retract(goal))
  }

  // ---- the stages a request passes, in order ----

  function TargetFor(goal: Goal, index: nat, env: Env): string
    requires index < |goal.candidates|
  {
    TargetResolution.Resolve(env.sceneIds, goal.candidates[index].targetId)
  }

  ghost predicate ObjectKnown(goal: Goal, index: nat, env: Env)
    requires index < |goal.candidates|
  {
    var c := goal.candidates[index];
    c.targetId != "" && (ExplicitDims(c) || Listed(env.sceneObjects, TargetFor(goal, index, env)))
  }

  ghost function Box(goal: Goal, index: nat, env: Env): Option<ObjectBoundingBox>
    requires index < |goal.candidates|
  {
    BoxFor(goal.candidates[index], TargetFor(goal, index, env), env.sceneObjects)
  }

  ghost predicate RobotKnown(goal: Goal, env: Env) {
    goal.groupName != "" && env.robot.Some? && KnowsTool(goal, env.robot.value)
  }

  ghost function Answer(goal: Goal, index: nat, env: Env): PlanOutcome
    requires index < |goal.candidates| && Box(goal, index, env).Some?
  {
    env.plan(TaskFor(goal, TargetFor(goal, index, env), Box(goal, index, env).value))
  }

  /** Everything up to the MTC planner is in order. */
  ghost predicate Plannable(goal: Goal, index: nat, env: Env)
    requires index < |goal.candidates|
  {
    env.nodeUp && ObjectKnown(goal, index, env) && Box(goal, index, env).Some? && RobotKnown(goal, env)
  }

  ghost predicate Planned(goal: Goal, index: nat, env: Env)
    requires index < |goal.candidates|
  {
    Plannable(goal, index, env) && Answer(goal, index, env).Found? && Answer(goal, index, env).solutions != []
  }

  ghost predicate Extractable(goal: Goal, index: nat, env: Env)
    requires index < |goal.candidates|
  {
    Planned(goal, index, env) && KnowsGroups(goal, env.robot.value) && GripperReady(goal, env.robot.value)
  }

  /** All grasps of the candidate, without a limit on their number. */
  ghost function GraspsFor(goal: Goal, index: nat, env: Env): seq<RankedGrasp>
    requires index < |goal.candidates| && Extractable(goal, index, env)
  {
    AllGrasps(ContextFor(goal, TargetFor(goal, index, env), index, env.robot.value), Answer(goal, index, env).solutions)
  }

  /** The loop over the solutions is reached. */
  ghost predicate Collectable(goal: Goal, index: nat, env: Env)
    requires index < |goal.candidates|
  {
    Extractable(goal, index, env) && !env.interrupt.WhilePreparing?
  }

  /** The whole condition for success. */
  ghost predicate Graspable(goal: Goal, index: nat, env: Env)
    requires index < |goal.candidates|
  {
    Collectable(goal, index, env) && GraspsFor(goal, index, env) != [] && !env.interrupt.WhilePublishing?
  }

  method FindObject(objects: seq<CollisionObject>, id: string) returns (r: Option<CollisionObject>)
    ensures r == FirstListed(objects, id)
    ensures r.Some? <==> Listed(Some(objects), id)
    ensures r.Some? ==> r.value.id == id
  {
    for i := 0 to |objects|
      invariant FirstListed(objects, id) == FirstListed(objects[i..], id)
      invariant forall j :: 0 <= j < i ==> objects[j].id != id
    {
      if objects[i].id == id {
        return Some(objects[i]);
      }
      assert objects[i..][1..] == objects[i + 1..];
    }
    return None;
  }

  /** The dimensions given with the candidate, or else the bounding box of the scene object. */
  method FindBox(c: Candidate, targetId: string, objects: Option<seq<CollisionObject>>)
    returns (known: bool, box: Option<ObjectBoundingBox>)
    ensures known <==> ExplicitDims(c) || Listed(objects, targetId)
    ensures box == BoxFor(c, targetId, objects)
  {
    hide BoundingBoxOf, BoxOf, PoseToIsometry;
    if c.dims.x > 0.0 && c.dims.y > 0.0 && c.dims.z > 0.0 {
      return true, Some(ObjectBoundingBox(c.dims, PoseToIsometry(c.center)));
    }
    if objects.None? {
      return false, None;
    }
    var listed := FindObject(objects.value, targetId);
    if listed.None? {
      return false, None;
    }
    known := true;
    box := ComputeObjectBoundingBox(listed.value);
  }

  /** The loop over the gripper joints. */
  method CoversJoints(joints: seq<string>, state: map<string, real>) returns (covered: bool)
    ensures covered <==> forall j :: j in joints ==> j in state
  {
    for i := 0 to |joints|
      invariant forall j :: j in joints[..i] ==> j in state
    {
      if joints[i] !in state {
        return false;
      }
    }
    return true;
  }

  datatype Prepared = Ready(task: Task) | Refused(error: ErrorCode)

  /** Everything before planning. */
  method PrepareTask(goal: Goal, index: nat, env: Env) returns (r: Prepared)
    requires index < |goal.candidates|
    ensures r.Ready? <==> Plannable(goal, index, env)
    ensures r.Ready? ==> r.task == TaskFor(goal, TargetFor(goal, index, env), Box(goal, index, env).value)
    ensures r == Refused(InvalidObjectName) <==> env.nodeUp && !ObjectKnown(goal, index, env)
    ensures r == Refused(InvalidGroupName) <==>
            env.nodeUp && ObjectKnown(goal, index, env) && Box(goal, index, env).Some? && goal.groupName == ""
    ensures r == Refused(InvalidRobotState) <==>
            && env.nodeUp && ObjectKnown(goal, index, env) && Box(goal, index, env).Some? && goal.groupName != ""
            && env.robot.Some? && !KnowsTool(goal, env.robot.value)
    ensures r.Refused? ==> r.error in {Failure, InvalidObjectName, InvalidGroupName, InvalidRobotState}
  {
    hide BoundingBoxOf, BoxOf, TargetResolution.Resolve, PoseToIsometry;
    hide TimeBudget.CandidateTimeoutSec, Boxes.ValidOnly;
    if !env.nodeUp {
      return Refused(Failure);
    }
    var candidate := goal.candidates[index];
    if candidate.targetId == "" {
      return Refused(InvalidObjectName);
    }
    var targetId := TargetResolution.ResolveTargetObjectId(env.sceneIds, candidate.targetId);
    var known, found := FindBox(candidate, targetId, env.sceneObjects);
    hide BoxFor, ExplicitDims, Listed;
    if !known {
      return Refused(InvalidObjectName);
    }
    if found.None? {
      return Refused(Failure);
    }
    var box := found.value;
    var surfaces := Boxes.FilterSurfaces(goal.surfaces);
    var rotations := if goal.numRotations > 0 then goal.numRotations else 4;
    var k := if goal.maxNumGrasps > 0 then goal.maxNumGrasps else 1;
    if goal.groupName == "" {
      return Refused(InvalidGroupName);
    }
    if env.robot.None? {
      return Refused(Failure);
    }
    var robot := env.robot.value;
    var eef, ikFrame := OrDefault(goal.endEffectorGroup, "hand"), OrDefault(goal.toolFrame, "hande_tcp");
    if eef !in robot.endEffectors || ikFrame !in robot.links {
      return Refused(InvalidRobotState);
    }
    var retract := if goal.retractDistM.Positive() then goal.retractDistM else Finite(0.05);
    return Ready(Task(targetId, goal.groupName, eef, ikFrame,
                      TimeBudget.CandidateTimeoutSec(goal.planningTimeoutSec, |goal.candidates|),
                      box.dimensions, box.center, surfaces, rotations, retract, k));
  }

  method PlanGrasps(goal: Goal, index: nat, env: Env) returns (error: ErrorCode, grasps: seq<RankedGrasp>)
    requires index < |goal.candidates|
    // success exactly when every stage passes, with the first k grasps of the candidate
    ensures error == Success <==> Graspable(goal, index, env)
    ensures error == Success ==> grasps == Ranking.Take(MaxGrasps(goal.maxNumGrasps), GraspsFor(goal, index, env))
    ensures error != Success ==> grasps == []
    // otherwise the first stage that fails names the error
    ensures error == InvalidObjectName <==> env.nodeUp && !ObjectKnown(goal, index, env)
    ensures error == InvalidGroupName <==>
            && env.nodeUp && ObjectKnown(goal, index, env) && Box(goal, index, env).Some?
            && (goal.groupName == "" || (Planned(goal, index, env) && !KnowsGroups(goal, env.robot.value)))
    ensures error == InvalidRobotState <==>
            && env.nodeUp && ObjectKnown(goal, index, env) && Box(goal, index, env).Some? && goal.groupName != "" && env.robot.Some?
            && (!KnowsTool(goal, env.robot.value)
                || (Planned(goal, index, env) && KnowsGroups(goal, env.robot.value) && !GripperReady(goal, env.robot.value)))
    ensures error == PlanningFailed <==>
            || (Plannable(goal, index, env) && !Answer(goal, index, env).Threw? && !Planned(goal, index, env))
            || (Collectable(goal, index, env) && GraspsFor(goal, index, env) == [])
    ensures error != Preempted
  {
    hide ObjectKnown, Box, TaskFor, TargetFor, AllGrasps, KnowsTool, KnowsGroups, GripperReady, ContextFor;
    var prepared := PrepareTask(goal, index, env);
    if prepared.Refused? {
      return prepared.error, [];
    }
    var planned := env.plan(prepared.task);
    if planned.Threw? {
      return Failure, [];
    }
    if planned.NoPlan? || planned.solutions == [] {
      return PlanningFailed, [];
    }
    error, grasps := ExtractGrasps(goal, index, prepared.task.targetId, env.robot.value, planned.solutions, env.interrupt);
    assert prepared.task.targetId == TargetFor(goal, index, env) by { TaskTarget(goal, index, env); }
  }

  lemma TaskTarget(goal: Goal, index: nat, env: Env)
    requires index < |goal.candidates| && Box(goal, index, env).Some?
    ensures TaskFor(goal, TargetFor(goal, index, env), Box(goal, index, env).value).targetId == TargetFor(goal, index, env)
  {
  }

  /** From the solutions to the grasps: the joint groups, the gripper states, the loop, and the publication. */
  method ExtractGrasps(goal: Goal, index: nat, targetId: string, robot: Robot, solutions: seq<Solution>, interrupt: Interrupt)
    returns (error: ErrorCode, grasps: seq<RankedGrasp>)
    ensures error == InvalidGroupName <==> !KnowsGroups(goal, robot)
    ensures error == InvalidRobotState <==> KnowsGroups(goal, robot) && !GripperReady(goal, robot)
    ensures error == InvalidGroupName || error == InvalidRobotState || error == PlanningFailed || error == Success || error == Failure
    ensures error != Success ==> grasps == []
    ensures KnowsGroups(goal, robot) && GripperReady(goal, robot) ==>
              var all := AllGrasps(ContextFor(goal, targetId, index, robot), solutions);
              && (error == PlanningFailed <==> !interrupt.WhilePreparing? && all == [])
              && (error == Success <==> interrupt.Never? && all != [])
              && (error == Success ==> grasps == Ranking.Take(MaxGrasps(goal.maxNumGrasps), all))
  {
    hide AllGrasps, StateCovers;
    grasps := [];
    var eef := OrDefault(goal.endEffectorGroup, "hand");
    if goal.groupName !in robot.groups || eef !in robot.groups {
      return InvalidGroupName, [];
    }
    var ready := CheckGripper(robot.groups[eef]);
    if !ready {
      return InvalidRobotState, [];
    }
    if interrupt.WhilePreparing? {
      return Failure, [];
    }
    var retract := if goal.retractDistM.Positive() then goal.retractDistM else Finite(0.05);
    var k := if goal.maxNumGrasps > 0 then goal.maxNumGrasps else 1;
    grasps := CollectGrasps(Context(index, targetId, robot.groups[goal.groupName].joints, retract), solutions, k);
    if grasps == [] {
      return PlanningFailed, [];
    }
    if interrupt.WhilePublishing? {
      return Failure, [];
    }
    error := Success;
  }

  /** Both named states of the gripper exist and give every joint a position. */
  method CheckGripper(gripper: Group) returns (ready: bool)
    ensures ready <==> StateCovers(gripper, "open") && StateCovers(gripper, "closed")
  {
    if "open" !in gripper.states || "closed" !in gripper.states {
      return false;
    }
    var opens := CoversJoints(gripper.joints, gripper.states["open"]);
    var closes := CoversJoints(gripper.joints, gripper.states["closed"]);
    return opens && closes;
  }

  /** Success yields between one grasp and k, all of this candidate and its resolved target. */
  lemma SuccessfulGrasps(goal: Goal, index: nat, env: Env)
    requires index < |goal.candidates| && Graspable(goal, index, env)
    ensures var gs := Ranking.Take(MaxGrasps(goal.maxNumGrasps), GraspsFor(goal, index, env));
            && 1 <= |gs| <= MaxGrasps(goal.maxNumGrasps)
            && (forall g :: g in gs ==> g.candidateIndex == index % UINT32 && g.targetId == TargetFor(goal, index, env))
            && (forall i, j :: 0 <= i < j < |gs| ==> gs[i].id != gs[j].id)
  {
    var robot, solutions := env.robot.value, Answer(goal, index, env).solutions;
    hide AllGrasps, Answer;
    GraspsNumbered(ContextFor(goal, TargetFor(goal, index, env), index, robot), solutions);
  }

  /** The box passed to the planner is a proper one, whether given with the request or computed. */
  lemma TaskBoxSound(goal: Goal, index: nat, env: Env)
    requires index < |goal.candidates| && Box(goal, index, env).Some?
    ensures var box := Box(goal, index, env).value;
            IsRigid(box.center) && box.dimensions.x > 0.0 && box.dimensions.y > 0.0 && box.dimensions.z > 0.0
  {
    var c, box := goal.candidates[index], Box(goal, index, env).value;
    hide IsRigid, BoundingBoxOf, BoxOf, PoseToIsometry;
    if ExplicitDims(c) {
      PoseToIsometryRigid(c.center);
    } else {
      BoundingBoxSound(FirstListed(env.sceneObjects.value, TargetFor(goal, index, env)).value, box);
    }
  }

  predicate FirstWithId(objects: seq<CollisionObject>, id: string, i: nat) {
    i < |objects| && objects[i].id == id && forall j :: 0 <= j < i ==> objects[j].id != id
  }

  lemma {:induction false} FirstListedIs(objects: seq<CollisionObject>, id: string) returns (i: nat)
    requires FirstListed(objects, id).Some?
    ensures FirstWithId(objects, id, i) && FirstListed(objects, id) == Some(objects[i])
  {
    if objects[0].id == id {
      i := 0;
    } else {
      var k := FirstListedIs(objects[1..], id);
      i := k + 1;
      forall j | 0 <= j < i
        ensures objects[j].id != id
      {
        assert j > 0 ==> objects[j] == objects[1..][j - 1];
      }
    }
  }

  /** The candidate's own box if it has a positive extent on every axis, else that of the first object of the id. */
  ghost predicate BoxGiven(c: Candidate, id: string, objects: Option<seq<CollisionObject>>, dims: Vec3, center: Isometry) {
    if c.dims.x > 0.0 && c.dims.y > 0.0 && c.dims.z > 0.0 then dims == c.dims && center == PoseToIsometry(c.center)
    else
      objects.Some? && exists i: nat :: FirstWithId(objects.value, id, i)
                                        && BoundingBoxOf(objects.value[i]) == Some(ObjectBoundingBox(dims, center))
  }

  lemma BoxIsGiven(c: Candidate, id: string, objects: Option<seq<CollisionObject>>)
    requires BoxFor(c, id, objects).Some?
    ensures var box := BoxFor(c, id, objects).value; BoxGiven(c, id, objects, box.dimensions, box.center)
  {
    hide BoundingBoxOf, BoxOf, PoseToIsometry;
    if !ExplicitDims(c) {
      var i := FirstListedIs(objects.value, id);
      var box := BoxFor(c, id, objects).value;
      assert ObjectBoundingBox(box.dimensions, box.center) == box;
    }
  }

  lemma SurfacesAre(goal: Goal, x: int)
    ensures x in Surfaces(goal) <==> 0 <= x <= 5 && (x in goal.surfaces || forall y :: y in goal.surfaces ==> !(0 <= y <= 5))
  {
    var valid := Boxes.ValidOnly(goal.surfaces);
    forall y
      ensures y in valid <==> y in goal.surfaces && 0 <= y <= 5
    {
      Boxes.ValidOnlyKeeps(goal.surfaces, y);
    }
    if valid != [] {
      assert valid[0] in valid;
    }
  }

  /** The task of a candidate. */
  ghost function TaskOf(goal: Goal, index: nat, env: Env): Task
    requires index < |goal.candidates| && Box(goal, index, env).Some?
  {
    TaskFor(goal, TargetFor(goal, index, env), Box(goal, index, env).value)
  }

  lemma TaskFields(goal: Goal, index: nat, env: Env)
    requires index < |goal.candidates| && Box(goal, index, env).Some?
    ensures var task := TaskOf(goal, index, env);
            && task.targetId == TargetResolution.Resolve(env.sceneIds, goal.candidates[index].targetId)
            && task.group == goal.groupName
            && task.endEffector == (if goal.endEffectorGroup == "" then "hand" else goal.endEffectorGroup)
            && task.ikFrame == (if goal.toolFrame == "" then "hande_tcp" else goal.toolFrame)
            && TimeBudget.EvenShare(task.timeoutSec, |goal.candidates|,
                                    if goal.planningTimeoutSec.FinitePositive() then goal.planningTimeoutSec.r else 5.0)
            && task.numRotations == (if goal.numRotations > 0 then goal.numRotations else 4)
            && task.retract == (if goal.retractDistM.Positive() then goal.retractDistM else Finite(0.05))
            && task.maxSolutions == (if goal.maxNumGrasps > 0 then goal.maxNumGrasps else 1)
  {
    hide Surfaces, BoxGiven, TargetResolution.Resolve, BoxFor;
    TimeBudget.CandidateShare(goal.planningTimeoutSec, |goal.candidates|);
    hide TimeBudget.CandidateTimeoutSec, TimeBudget.EvenShare;
  }

  /**
   What the planner is asked for a candidate, in terms of the goal and the scene: the named fields,
   one share of the time-out, the candidate's box, and every valid surface of the goal (all six
   without one).
   */
  lemma TaskExact(goal: Goal, index: nat, env: Env)
    requires index < |goal.candidates| && Box(goal, index, env).Some?
    ensures var task := TaskOf(goal, index, env);
            && task.targetId == TargetResolution.Resolve(env.sceneIds, goal.candidates[index].targetId)
            && task.group == goal.groupName
            && task.endEffector == (if goal.endEffectorGroup == "" then "hand" else goal.endEffectorGroup)
            && task.ikFrame == (if goal.toolFrame == "" then "hande_tcp" else goal.toolFrame)
            && TimeBudget.EvenShare(task.timeoutSec, |goal.candidates|,
                                    if goal.planningTimeoutSec.FinitePositive() then goal.planningTimeoutSec.r else 5.0)
            && task.numRotations == (if goal.numRotations > 0 then goal.numRotations else 4)
            && task.retract == (if goal.retractDistM.Positive() then goal.retractDistM else Finite(0.05))
            && task.maxSolutions == (if goal.maxNumGrasps > 0 then goal.maxNumGrasps else 1)
    ensures var task := TaskOf(goal, index, env);
            BoxGiven(goal.candidates[index], TargetFor(goal, index, env), env.sceneObjects, task.dims, task.center)
    ensures forall x :: x in TaskOf(goal, index, env).surfaces <==>
              0 <= x <= 5 && (x in goal.surfaces || forall y :: y in goal.surfaces ==> !(0 <= y <= 5))
  {
    TaskFields(goal, index, env);
    BoxIsGiven(goal.candidates[index], TargetFor(goal, index, env), env.sceneObjects);
    hide Surfaces, BoxGiven, TargetFor, BoxFor, TimeBudget.CandidateTimeoutSec, TimeBudget.EvenShare;
    forall x
      ensures x in Surfaces(goal) <==> 0 <= x <= 5 && (x in goal.surfaces || forall y :: y in goal.surfaces ==> !(0 <= y <= 5))
    {
      SurfacesAre(goal, x);
    }
  }

  /**
   For every candidate that reaches the planner, the box generator yields one pose per requested
   valid surface and rotation, at least one, each of them sound: rigid, on its face, and with
   every back-off outside the box.
   */
  lemma TaskPosesSound(goal: Goal, index: nat, env: Env, frame: string, step: Boxes.Yaw)
    requires index < |goal.candidates| && Box(goal, index, env).Some? && Boxes.IsUnit(step)
    ensures var task := TaskFor(goal, TargetFor(goal, index, env), Box(goal, index, env).value);
            var poses := Boxes.PosesOf(Boxes.Request(frame, task.center, task.dims, task.numRotations, step), task.surfaces);
            && |poses| == |task.surfaces| * task.numRotations > 0
            && (forall p :: p in poses ==>
                  p.frame == frame && Boxes.SoundPose(Boxes.Request(frame, task.center, task.dims, task.numRotations, step), p))
  {
    var task := TaskFor(goal, TargetFor(goal, index, env), Box(goal, index, env).value);
    var r := Boxes.Request(frame, task.center, task.dims, task.numRotations, step);
    TaskBoxSound(goal, index, env);
    hide IsRigid, Boxes.IsUnit, Boxes.SoundPose, Box;
    Boxes.FilteredPosesNonEmpty(r, goal.surfaces);
    Boxes.EveryPoseSound(r, task.surfaces);
    FrameOfPoses(r, task.surfaces);
  }

  /**
   With a full turn in exactly the requested number of steps, the poses generated for a candidate
   are pairwise different exactly when the goal lists no valid surface twice; a goal without valid
   surfaces gets all six, each once.
   */
  lemma TaskPosesDistinct(goal: Goal, index: nat, env: Env, frame: string, step: Boxes.Yaw)
    requires index < |goal.candidates| && Box(goal, index, env).Some? && Boxes.IsPrimitive(step, Rotations(goal))
    ensures var task := TaskFor(goal, TargetFor(goal, index, env), Box(goal, index, env).value);
            var r := Boxes.Request(frame, task.center, task.dims, task.numRotations, step);
            Boxes.TargetsDiffer(Boxes.PosesOf(r, task.surfaces)) <==> Boxes.NoRepeats(Boxes.ValidOnly(goal.surfaces))
  {
    var task := TaskFor(goal, TargetFor(goal, index, env), Box(goal, index, env).value);
    var r := Boxes.Request(frame, task.center, task.dims, task.numRotations, step);
    TaskBoxSound(goal, index, env);
    hide IsRigid, Boxes.IsPrimitive, Boxes.PosesOf, Boxes.ValidOnly, Boxes.NoRepeats, Boxes.TargetsDiffer, Box;
    Boxes.FilteredPosesDistinct(r, goal.surfaces);
  }

  lemma {:induction false} FrameOfPoses(r: Boxes.Request, surfaces: seq<int>)
    ensures forall p :: p in Boxes.PosesOf(r, surfaces) ==> p.frame == r.frame
  {
    if surfaces != [] {
      FrameOfPoses(r, surfaces[..|surfaces| - 1]);
      hide Boxes.GraspTransform, Boxes.YawPow;
    }
  }
}
