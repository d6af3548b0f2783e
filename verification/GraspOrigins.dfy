/**
 Where the grasps of a candidate come from: which solutions of the planner yield one, in which
 order, and what each grasp takes from its solution.
 */
module GraspOrigins {
  import opened Wrappers
  import opened Geometry
  import opened GraspMessages
  import opened GraspPipeline
  import Names

  // ---- the state before the grasp ----

  /** Entry j of the whole solution tree, in preorder, is the first solution of the approach stage. */
  predicate FirstApproach(s: Solution, j: nat) {
    var all := Preorder(s.root);
    j < |all| && all[j].creator == "approach object" && forall k :: 0 <= k < j ==> all[k].creator != "approach object"
  }

  /** The state the approach starts from, where the first approach of the tree has one. */
  ghost predicate StartsAt(s: Solution, start: StartState) {
    exists j: nat :: FirstApproach(s, j) && Preorder(s.root)[j].start == Some(start)
  }

  /** The grasp pose in the world, moved back along its own z axis; none for an infinite distance. */
  function BackedOff(t: Target, retract: Double): Option<Isometry> {
    match retract
    case Finite(d) =>
      Some(Compose(Compose(t.worldTFrame, PoseToIsometry(t.pose)), Isometry(IDENTITY_MATRIX, Vec3(0.0, 0.0, -d))))
    case _ => None
  }

  // ---- which solutions yield a grasp ----

  ghost predicate Accepts(ctx: Context, s: Solution) {
    && s.usable && s.target.Some?
    && ((exists start :: StartsAt(s, start)) || s.inverseKinematics(BackedOff(s.target.value, ctx.retract)).Some?)
  }

  ghost function AcceptedOnly(ctx: Context, solutions: seq<Solution>): (r: seq<Solution>)
    ensures forall k :: 0 <= k < |r| ==> Accepts(ctx, r[k]) && r[k] in solutions
  {
    if solutions == [] then []
    else
      var k := |solutions| - 1;
      AcceptedOnly(ctx, solutions[..k]) + if Accepts(ctx, solutions[k]) then [solutions[k]] else []
  }

  // ---- what a grasp takes from its solution ----

  /** 1 / (1 + cost), with a negative cost or none counting as zero. */
  predicate RatedBy(quality: real, cost: Double) {
    match cost
    case Finite(c) => if c > 0.0 then quality * (1.0 + c) == 1.0 else quality == 1.0
    case PosInf => quality == 0.0
    case _ => quality == 1.0
  }

  /** The pre-grasp pose, seen in the frame of the target, is this pose of the world. */
  predicate SeenFrom(worldTFrame: Isometry, pose: Option<Isometry>, world: Option<Isometry>) {
    pose.Some? == world.Some? && (pose.Some? ==> Compose(worldTFrame, pose.value) == world.value)
  }

  /** The state before the grasp: the start of the approach, or else the state that reaches the backed-off pose. */
  ghost predicate PreGraspFrom(ctx: Context, s: Solution, t: Target, g: RankedGrasp) {
    && (forall start :: StartsAt(s, start) ==>
          && g.preGraspIk.positions == start.armPositions
          && (IsRigid(t.worldTFrame) ==> SeenFrom(t.worldTFrame, g.preGraspPose, Some(start.toolPose))))
    && ((forall start :: !StartsAt(s, start)) ==>
          && s.inverseKinematics(BackedOff(t, ctx.retract)) == Some(g.preGraspIk.positions)
          && (IsRigid(t.worldTFrame) ==> SeenFrom(t.worldTFrame, g.preGraspPose, BackedOff(t, ctx.retract))))
  }

  /** g is the n-th grasp of the candidate, made from this solution. */
  ghost predicate GraspFrom(ctx: Context, s: Solution, n: nat, g: RankedGrasp) {
    && s.target.Some?
    && g.candidateIndex == ctx.index % UINT32 && g.targetId == ctx.targetId && g.id == "grasp_" + Names.Decimal(n)
    && RatedBy(g.quality, s.cost)
    && g.frame == s.target.value.frame && g.graspPose == s.target.value.pose
    && g.graspIk == JointState(ctx.armJoints, s.armPositions)
    && g.preGraspIk.names == ctx.armJoints
    && PreGraspFrom(ctx, s, s.target.value, g)
  }

  // ---- proofs ----

  lemma {:induction false} FirstByIs(ss: seq<SubSolution>, stage: string)
    ensures match FirstBy(ss, stage)
            case None => forall k :: 0 <= k < |ss| ==> ss[k].creator != stage
            case Some(s) => exists j :: 0 <= j < |ss| && ss[j] == s && s.creator == stage
                                        && forall k :: 0 <= k < j ==> ss[k].creator != stage
  {
    if ss != [] && ss[0].creator != stage {
      FirstByIs(ss[1..], stage);
      var rest := FirstBy(ss[1..], stage);
      if rest.Some? {
        var j :| 0 <= j < |ss[1..]| && ss[1..][j] == rest.value && forall k :: 0 <= k < j ==> ss[1..][k].creator != stage;
        assert ss[j + 1] == rest.value;
        forall k | 0 <= k < j + 1
          ensures ss[k].creator != stage
        {
          assert k > 0 ==> ss[k] == ss[1..][k - 1];
        }
      } else {
        forall k | 0 <= k < |ss|
          ensures ss[k].creator != stage
        {
          assert k > 0 ==> ss[k] == ss[1..][k - 1];
        }
      }
    }
  }

  lemma FirstApproachUnique(s: Solution, i: nat, j: nat)
    requires FirstApproach(s, i) && FirstApproach(s, j)
    ensures i == j
  {
  }

  lemma ApproachStartIs(s: Solution, start: StartState)
    ensures StartsAt(s, start) <==> ApproachStart(s) == Some(start)
  {
    FindIsFirst(s.root, APPROACH_STAGE);
    FirstByIs(Preorder(s.root), APPROACH_STAGE);
    hide Preorder, FindSubSolution;
    var all := Preorder(s.root);
    forall i: nat, j: nat | FirstApproach(s, i) && FirstApproach(s, j)
      ensures i == j
    {
      FirstApproachUnique(s, i, j);
    }
    if ApproachStart(s) == Some(start) {
      var first := FirstBy(all, APPROACH_STAGE).value;
      var j :| 0 <= j < |all| && all[j] == first && first.creator == APPROACH_STAGE
               && forall k :: 0 <= k < j ==> all[k].creator != APPROACH_STAGE;
      assert FirstApproach(s, j);
    }
  }

  lemma BackedOffIs(t: Target, retract: Double)
    ensures BackedOff(t, retract) == Fallback(t, retract)
  {
    hide Compose, PoseToIsometry;
  }

  lemma InFrameIs(worldTFrame: Isometry, world: Option<Isometry>)
    requires IsRigid(worldTFrame)
    ensures SeenFrom(worldTFrame, InFrame(worldTFrame, world), world)
  {
    hide Compose, Inverse, IsRigid;
    if world.Some? {
      InverseCancelsRight(worldTFrame);
      ComposeAssoc(worldTFrame, Inverse(worldTFrame), world.value);
      IdentityCompose(world.value);
    }
  }

  lemma QualityIs(cost: Double)
    ensures RatedBy(Quality(cost), cost)
  {
  }

  lemma PreGraspIs(ctx: Context, s: Solution, n: nat)
    requires s.usable && s.target.Some?
    ensures GraspOf(ctx, s, n).Some? <==> Accepts(ctx, s)
    ensures GraspOf(ctx, s, n).Some? ==> PreGraspFrom(ctx, s, s.target.value, GraspOf(ctx, s, n).value)
  {
    var t := s.target.value;
    forall start
      ensures StartsAt(s, start) <==> ApproachStart(s) == Some(start)
    {
      ApproachStartIs(s, start);
    }
    BackedOffIs(t, ctx.retract);
    if IsRigid(t.worldTFrame) {
      InFrameIs(t.worldTFrame, Fallback(t, ctx.retract));
      if ApproachStart(s).Some? {
        InFrameIs(t.worldTFrame, Some(ApproachStart(s).value.toolPose));
      }
    }
    hide ApproachStart, StartsAt, Fallback, BackedOff, InFrame, SeenFrom, IsRigid, Quality;
  }

  lemma OneGrasp(ctx: Context, s: Solution, n: nat)
    ensures GraspOf(ctx, s, n).Some? <==> Accepts(ctx, s)
    ensures GraspOf(ctx, s, n).Some? ==> GraspFrom(ctx, s, n, GraspOf(ctx, s, n).value)
  {
    QualityIs(s.cost);
    if s.usable && s.target.Some? {
      PreGraspIs(ctx, s, n);
    }
    hide PreGraspFrom, RatedBy, Quality, StartsAt, BackedOff, PreGrasp;
  }

  /** The grasps of a candidate are made from the accepted solutions, one each, in their order. */
  lemma {:induction false} GraspsExact(ctx: Context, solutions: seq<Solution>)
    ensures var gs, accepted := AllGrasps(ctx, solutions), AcceptedOnly(ctx, solutions);
            |gs| == |accepted| && forall n :: 0 <= n < |gs| ==> GraspFrom(ctx, accepted[n], n, gs[n])
  {
    hide Accepts, GraspOf, GraspFrom;
    if solutions != [] {
      var k := |solutions| - 1;
      GraspsExact(ctx, solutions[..k]);
      OneGrasp(ctx, solutions[k], |AllGrasps(ctx, solutions[..k])|);
    }
  }

  /**
   The same for a goal: the joints are those of the goal's group, the retract distance the goal's
   if it is positive, and the solutions those of the planner.
   */
  lemma GoalGraspsExact(goal: Goal, index: nat, env: Env, outcome: seq<Solution>)
    requires index < |goal.candidates| && Extractable(goal, index, env) && Answer(goal, index, env) == Found(outcome)
    ensures var retract := if goal.retractDistM.Positive() then goal.retractDistM else Finite(0.05);
            var joints := env.robot.value.groups[goal.groupName].joints;
            var ctx := Context(index, TargetFor(goal, index, env), joints, retract);
            var gs, accepted := GraspsFor(goal, index, env), AcceptedOnly(ctx, outcome);
            |gs| == |accepted| && forall n :: 0 <= n < |gs| ==> GraspFrom(ctx, accepted[n], n, gs[n])
  {
    var ctx := ContextFor(goal, TargetFor(goal, index, env), index, env.robot.value);
    hide AllGrasps, AcceptedOnly, GraspFrom, TargetFor, Answer, GripperReady, ObjectKnown, Box;
    GraspsExact(ctx, outcome);
  }

  // ---- when a candidate yields grasps at all ----

  lemma {:induction false} SomeAccepted(ctx: Context, solutions: seq<Solution>)
    ensures AcceptedOnly(ctx, solutions) != [] <==> exists s :: s in solutions && Accepts(ctx, s)
  {
    hide Accepts;
    if solutions != [] {
      var k := |solutions| - 1;
      SomeAccepted(ctx, solutions[..k]);
      assert solutions == solutions[..k] + [solutions[k]];
    }
  }

  /** The state exists and gives every joint of the gripper a position. */
  predicate GivesAll(states: map<string, map<string, real>>, state: string, joints: seq<string>) {
    state in states && forall j :: j in joints ==> j in states[state]
  }

  /** The robot knows the gripper, the frame and both groups, and the gripper its open and closed state. */
  predicate Equipped(robot: Robot, group: string, gripper: string, frame: string) {
    && gripper in robot.endEffectors && frame in robot.links && group in robot.groups && gripper in robot.groups
    && var g := robot.groups[gripper]; GivesAll(g.states, "open", g.joints) && GivesAll(g.states, "closed", g.joints)
  }

  /** Everything before the loop over the solutions is in order. */
  lemma ExtractableExact(goal: Goal, index: nat, env: Env)
    requires index < |goal.candidates|
    ensures var gripper := if goal.endEffectorGroup == "" then "hand" else goal.endEffectorGroup;
            var frame := if goal.toolFrame == "" then "hande_tcp" else goal.toolFrame;
            Extractable(goal, index, env) <==>
            && env.nodeUp && goal.candidates[index].targetId != "" && Box(goal, index, env).Some?
            && goal.groupName != "" && env.robot.Some? && Equipped(env.robot.value, goal.groupName, gripper, frame)
            && Answer(goal, index, env).Found? && Answer(goal, index, env).solutions != []
  {
    if Box(goal, index, env).Some? {
      BoxMeansKnown(goal, index, env);
    }
    hide Box, ObjectKnown, Answer;
  }

  /** What the loop gives is empty exactly when no solution is accepted. */
  lemma SomeGrasps(goal: Goal, index: nat, env: Env)
    requires index < |goal.candidates| && Extractable(goal, index, env)
    ensures var retract := if goal.retractDistM.Positive() then goal.retractDistM else Finite(0.05);
            var ctx := Context(index, TargetFor(goal, index, env), env.robot.value.groups[goal.groupName].joints, retract);
            GraspsFor(goal, index, env) != [] <==> exists s :: s in Answer(goal, index, env).solutions && Accepts(ctx, s)
  {
    hide Accepts, GraspFrom, AllGrasps, AcceptedOnly, Box, ObjectKnown, Answer, TargetFor, GripperReady;
    var ctx := ContextFor(goal, TargetFor(goal, index, env), index, env.robot.value);
    GraspsExact(ctx, Answer(goal, index, env).solutions);
    SomeAccepted(ctx, Answer(goal, index, env).solutions);
  }

  /**
   A candidate yields grasps exactly when it is named and has a box, the robot is equipped for the
   goal, the planner answers the task, one of its solutions is accepted, and nothing throws.
   */
  lemma GraspableExact(goal: Goal, index: nat, env: Env)
    requires index < |goal.candidates|
    ensures var gripper := if goal.endEffectorGroup == "" then "hand" else goal.endEffectorGroup;
            var frame := if goal.toolFrame == "" then "hande_tcp" else goal.toolFrame;
            var retract := if goal.retractDistM.Positive() then goal.retractDistM else Finite(0.05);
            Graspable(goal, index, env) <==>
            && env.nodeUp && env.interrupt.Never?
            && goal.candidates[index].targetId != "" && Box(goal, index, env).Some?
            && goal.groupName != "" && env.robot.Some? && Equipped(env.robot.value, goal.groupName, gripper, frame)
            && Answer(goal, index, env).Found?
            && var ctx := Context(index, TargetFor(goal, index, env), env.robot.value.groups[goal.groupName].joints, retract);
               exists s :: s in Answer(goal, index, env).solutions && Accepts(ctx, s)
  {
    ExtractableExact(goal, index, env);
    if Extractable(goal, index, env) {
      SomeGrasps(goal, index, env);
    }
    hide Accepts, Box, Answer, TargetFor, Extractable, GraspsFor;
  }

  lemma BoxMeansKnown(goal: Goal, index: nat, env: Env)
    requires index < |goal.candidates| && Box(goal, index, env).Some?
    ensures ObjectKnown(goal, index, env) <==> goal.candidates[index].targetId != ""
  {
    hide TargetFor;
    if !ExplicitDims(goal.candidates[index]) {
      var i := FirstListedIs(env.sceneObjects.value, TargetFor(goal, index, env));
    }
  }
}
