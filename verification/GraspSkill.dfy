/**
 The skill: from its parameters to a goal, and from the ranked grasps that come back to the
 object references the caller named (`moveit_plan_grasp_skill.cpp`).
 */
module GraspSkill {
  import opened Wrappers
  import opened Geometry
  import opened GraspMessages
  import GraspAction
  import GraspPipeline
  import TargetResolution
  import TimeBudget

  // ---- parameters ----

  /** A reference names an object by id or, failing that, by name. */
  datatype ObjectReference = ObjectReference(id: string, byName: Option<string>)

  /** A frame reference: an id, a frame name, or the name of an object. */
  datatype FrameReference = FrameReference(id: string, frameName: Option<string>, objectName: Option<string>)

  datatype BoxAnnotations = BoxAnnotations(
    surfaces: seq<int>, numRotations: int, dims: Option<Vec3>,
    hasCenter: bool, centerPosition: Option<Vec3>, centerOrientation: Option<Quat>)

  datatype Params = Params(
    groupName: Option<string>, endEffectorGroup: Option<string>, toolFrame: Option<FrameReference>,
    timeoutMs: Option<Double>, gripperMotionSec: Option<Double>, retractDistM: Option<Double>, maxNumGrasps: Option<int>,
    box: Option<BoxAnnotations>, candidates: seq<ObjectReference>)

  function NonEmptyOr(name: Option<string>, fallback: string): (r: string)
    ensures fallback != "" ==> r != ""
  {
    if name.Some? && name.value != "" then name.value else fallback
  }

  /** Plus infinity counts as positive here; only the time-out is checked to be finite. */
  function PositiveOr(x: Option<Double>, fallback: real): (r: Double)
    ensures fallback > 0.0 ==> r.Positive()
  {
    if x.Some? && x.value.Positive() then x.value else Finite(fallback)
  }

  /** The id if there is one, else the name, else nothing. */
  function TargetIdOf(ref: ObjectReference): string {
    if ref.id != "" then ref.id else NonEmptyOr(ref.byName, "")
  }

  function ToolFrameOf(frame: Option<FrameReference>): string {
    if frame.None? then ""
    else if frame.value.id != "" then frame.value.id
    else NonEmptyOr(frame.value.frameName, NonEmptyOr(frame.value.objectName, ""))
  }

  /** The box annotations are the same for every candidate. */
  function CandidateFor(ref: ObjectReference, box: Option<BoxAnnotations>): Candidate {
    if box.None? then Candidate(TargetIdOf(ref), ZERO, DEFAULT_POSE)
    else
      var b := box.value;
      Candidate(TargetIdOf(ref),
                if b.dims.Some? then b.dims.value else ZERO,
                Pose(if b.hasCenter && b.centerPosition.Some? then b.centerPosition.value else DEFAULT_POSE.position,
                     if b.hasCenter && b.centerOrientation.Some? then b.centerOrientation.value else DEFAULT_POSE.orientation))
  }

  function CandidatesFor(refs: seq<ObjectReference>, box: Option<BoxAnnotations>): seq<Candidate> {
    seq(|refs|, i requires 0 <= i < |refs| => CandidateFor(refs[i], box))
  }

  function GoalOf(params: Params): Goal {
    Goal(NonEmptyOr(params.groupName, "ur_manipulator"),
         NonEmptyOr(params.endEffectorGroup, "hand"),
         ToolFrameOf(params.toolFrame),
         TimeBudget.GoalTimeoutSec(params.timeoutMs),
         PositiveOr(params.gripperMotionSec, 0.5),
         PositiveOr(params.retractDistM, 0.05),
         if params.box.Some? then params.box.value.surfaces else [],
         if params.box.Some? then params.box.value.numRotations else 0,
         if params.maxNumGrasps.Some? && params.maxNumGrasps.value > 0 then params.maxNumGrasps.value else 1,
         CandidatesFor(params.candidates, params.box))
  }

  method CreateToolFrame(frame: Option<FrameReference>) returns (toolFrame: string)
    ensures toolFrame == ToolFrameOf(frame)
  {
    toolFrame := "";
    if frame.Some? {
      if frame.value.id != "" {
        toolFrame := frame.value.id;
      } else if frame.value.frameName.Some? && frame.value.frameName.value != "" {
        toolFrame := frame.value.frameName.value;
      } else if frame.value.objectName.Some? && frame.value.objectName.value != "" {
        toolFrame := frame.value.objectName.value;
      }
    }
  }

  /** One pass of the loop over the references: fields not set keep the defaults of the message. */
  method CreateCandidate(ref: ObjectReference, box: Option<BoxAnnotations>) returns (candidate: Candidate)
    ensures candidate == CandidateFor(ref, box)
  {
    candidate := Candidate("", ZERO, DEFAULT_POSE);
    if ref.id != "" {
      candidate := candidate.(targetId := ref.id);
    } else if ref.byName.Some? && ref.byName.value != "" {
      candidate := candidate.(targetId := ref.byName.value);
    }
    if box.Some? {
      var b := box.value;
      if b.dims.Some? {
        candidate := candidate.(dims := b.dims.value);
      }
      if b.hasCenter {
        if b.centerPosition.Some? {
          candidate := candidate.(center := candidate.center.(position := b.centerPosition.value));
        }
        if b.centerOrientation.Some? {
          candidate := candidate.(center := candidate.center.(orientation := b.centerOrientation.value));
        }
      }
    }
  }

  /** The loop over the references. */
  method CreateCandidates(refs: seq<ObjectReference>, box: Option<BoxAnnotations>) returns (candidates: seq<Candidate>)
    ensures candidates == CandidatesFor(refs, box)
  {
    hide CandidateFor;
    candidates := [];
    for i := 0 to |refs|
      invariant |candidates| == i && forall j :: 0 <= j < i ==> candidates[j] == CandidateFor(refs[j], box)
    {
      var candidate := CreateCandidate(refs[i], box);
      candidates := candidates + [candidate];
    }
  }

  method CreatePlanGraspsGoal(params: Params) returns (goal: Goal)
    ensures goal == GoalOf(params)
  {
    hide CandidatesFor, ToolFrameOf, NonEmptyOr, PositiveOr;
    var group := NonEmptyOr(params.groupName, "ur_manipulator");
    var eef := NonEmptyOr(params.endEffectorGroup, "hand");
    var timeoutSec := TimeBudget.GoalTimeoutSec(params.timeoutMs);
    var motionSec := PositiveOr(params.gripperMotionSec, 0.5);
    var retract := PositiveOr(params.retractDistM, 0.05);
    var maxGrasps := if params.maxNumGrasps.Some? && params.maxNumGrasps.value > 0 then params.maxNumGrasps.value else 1;
    var surfaces, rotations := [], 0;
    if params.box.Some? {
      surfaces, rotations := params.box.value.surfaces, params.box.value.numRotations;
    }
    var toolFrame := CreateToolFrame(params.toolFrame);
    var candidates := CreateCandidates(params.candidates, params.box);
    goal := Goal(group, eef, toolFrame, timeoutSec, motionSec, retract, surfaces, rotations, maxGrasps, candidates);
  }

  /** The server accepts a goal of the skill exactly when its scene is ready, there is a candidate, and each is named. */
  lemma SkillGoalAccepted(params: Params, sceneReady: bool)
    ensures GraspAction.Accepted(sceneReady, GoalOf(params)) <==>
            && sceneReady && params.candidates != []
            && (forall i :: 0 <= i < |params.candidates| ==>
                  params.candidates[i].id != "" || (params.candidates[i].byName.Some? && params.candidates[i].byName.value != ""))
  {
    var goal := GoalOf(params);
    forall i | 0 <= i < |params.candidates|
      ensures goal.candidates[i].targetId != "" <==>
              params.candidates[i].id != "" || (params.candidates[i].byName.Some? && params.candidates[i].byName.value != "")
    {
    }
    if GraspAction.Accepted(sceneReady, goal) {
      assert |goal.candidates| == |params.candidates|;
      forall i | 0 <= i < |params.candidates|
        ensures goal.candidates[i].targetId != ""
      {
      }
    }
  }

  /** Except for the tool frame and the rotations, no default of the server applies to a goal of the skill. */
  lemma SkillGoalNeedsNoDefaults(params: Params)
    ensures var goal := GoalOf(params);
            && goal.groupName != ""
            && GraspPipeline.EndEffector(goal) == goal.endEffectorGroup
            && GraspPipeline.Retract(goal) == goal.retractDistM
            && MaxGrasps(goal.maxNumGrasps) == goal.maxNumGrasps
            && !TimeBudget.FallsBack(goal.planningTimeoutSec)
            && goal.gripperMotionSec.Positive()
  {
  }

  /** The given text, or the fallback where none is given. */
  predicate TextOr(given: Option<string>, fallback: string, r: string) {
    r == if given.Some? && given.value != "" then given.value else fallback
  }

  /** The given number where it is above zero, and the fallback where it is not, or none is given. */
  predicate AboveZeroOr(given: Option<Double>, fallback: real, r: Double) {
    match given
    case Some(Finite(x)) => r == Finite(if x > 0.0 then x else fallback)
    case Some(PosInf) => r == PosInf
    case _ => r == Finite(fallback)
  }

  /** The first of the texts that is given and not empty. */
  predicate FirstText(texts: seq<Option<string>>, r: string) {
    || (exists i :: 0 <= i < |texts| && texts[i] == Some(r) && r != "" && EmptyBefore(texts, i))
    || (r == "" && EmptyBefore(texts, |texts|))
  }

  predicate EmptyBefore(texts: seq<Option<string>>, n: nat)
    requires n <= |texts|
  {
    forall i :: 0 <= i < n ==> texts[i] == None || texts[i] == Some("")
  }

  /** A candidate names the object by the id of the reference or else its name, and has the box of the annotations. */
  predicate CandidateOf(ref: ObjectReference, box: Option<BoxAnnotations>, c: Candidate) {
    && FirstText([Some(ref.id), ref.byName], c.targetId)
    && c.dims == (if box.Some? && box.value.dims.Some? then box.value.dims.value else Vec3(0.0, 0.0, 0.0))
    && c.center.position == (if box.Some? && box.value.hasCenter && box.value.centerPosition.Some?
                             then box.value.centerPosition.value else Vec3(0.0, 0.0, 0.0))
    && c.center.orientation == (if box.Some? && box.value.hasCenter && box.value.centerOrientation.Some?
                                then box.value.centerOrientation.value else Quat(1.0, 0.0, 0.0, 0.0))
  }

  lemma TextsInTurn(texts: seq<Option<string>>, i: nat, r: string)
    requires i <= |texts| && EmptyBefore(texts, i)
    requires if i < |texts| then texts[i] == Some(r) && r != "" else r == ""
    ensures FirstText(texts, r)
  {
  }

  lemma TargetIdIs(ref: ObjectReference)
    ensures FirstText([Some(ref.id), ref.byName], TargetIdOf(ref))
  {
    TextsInTurn([Some(ref.id), ref.byName], if ref.id != "" then 0 else if TargetIdOf(ref) != "" then 1 else 2, TargetIdOf(ref));
  }

  lemma ToolFrameIs(frame: FrameReference)
    ensures FirstText([Some(frame.id), frame.frameName, frame.objectName], ToolFrameOf(Some(frame)))
  {
    var texts, r := [Some(frame.id), frame.frameName, frame.objectName], ToolFrameOf(Some(frame));
    TextsInTurn(texts, if frame.id != "" then 0 else if NonEmptyOr(frame.frameName, "") != "" then 1 else if r != "" then 2 else 3, r);
  }

  /** Which parameter feeds which field of the goal, and what stands in for it. */
  lemma GoalExact(params: Params)
    ensures var goal := GoalOf(params);
            && TextOr(params.groupName, "ur_manipulator", goal.groupName)
            && TextOr(params.endEffectorGroup, "hand", goal.endEffectorGroup)
            && (match params.toolFrame
                case None => goal.toolFrame == ""
                case Some(frame) => FirstText([Some(frame.id), frame.frameName, frame.objectName], goal.toolFrame))
            && (match params.timeoutMs
                case Some(Finite(ms)) => goal.planningTimeoutSec == Finite(if ms > 0.0 then ms / 1000.0 else 15.0)
                case _ => goal.planningTimeoutSec == Finite(15.0))
            && AboveZeroOr(params.gripperMotionSec, 0.5, goal.gripperMotionSec)
            && AboveZeroOr(params.retractDistM, 0.05, goal.retractDistM)
            && goal.surfaces == (if params.box.Some? then params.box.value.surfaces else [])
            && goal.numRotations == (if params.box.Some? then params.box.value.numRotations else 0)
            && goal.maxNumGrasps == (if params.maxNumGrasps.Some? && params.maxNumGrasps.value > 0 then params.maxNumGrasps.value else 1)
            && |goal.candidates| == |params.candidates|
            && forall i :: 0 <= i < |params.candidates| ==> CandidateOf(params.candidates[i], params.box, goal.candidates[i])
  {
    var goal := GoalOf(params);
    if params.toolFrame.Some? {
      ToolFrameIs(params.toolFrame.value);
    }
    forall i | 0 <= i < |params.candidates|
      ensures CandidateOf(params.candidates[i], params.box, goal.candidates[i])
    {
      TargetIdIs(params.candidates[i]);
      hide FirstText, TargetIdOf;
    }
    hide CandidateOf, FirstText, ToolFrameOf;
  }

  /** From the parameters to the planner: what is asked for a candidate of a goal of the skill. */
  lemma SkillTask(params: Params, index: nat, env: GraspPipeline.Env)
    requires index < |params.candidates| && GraspPipeline.Box(GoalOf(params), index, env).Some?
    ensures var task, box := GraspPipeline.TaskOf(GoalOf(params), index, env), params.box;
            && TextOr(params.groupName, "ur_manipulator", task.group)
            && TextOr(params.endEffectorGroup, "hand", task.endEffector)
            && AboveZeroOr(params.retractDistM, 0.05, task.retract)
            && task.numRotations == (if box.Some? && box.value.numRotations > 0 then box.value.numRotations else 4)
            && task.maxSolutions == (if params.maxNumGrasps.Some? && params.maxNumGrasps.value > 0 then params.maxNumGrasps.value else 1)
  {
    hide GraspPipeline.TaskOf, CandidatesFor, ToolFrameOf, GraspPipeline.Box, CandidateOf, FirstText;
    var goal := GoalOf(params);
    GoalExact(params);
    hide GoalOf;
    GraspPipeline.TaskFields(goal, index, env);
  }

  /** The shares of all candidates are the whole time-out. */
  lemma SkillShares(params: Params, index: nat, env: GraspPipeline.Env)
    requires index < |params.candidates| && GraspPipeline.Box(GoalOf(params), index, env).Some?
    ensures TimeBudget.EvenShare(GraspPipeline.TaskOf(GoalOf(params), index, env).timeoutSec, |params.candidates|,
                                 TimeBudget.TimeoutMs(params.timeoutMs) / 1000.0)
  {
    hide TimeBudget.EvenShare, GraspPipeline.TaskOf, CandidatesFor, ToolFrameOf, GraspPipeline.Box;
    var goal := GoalOf(params);
    assert goal.planningTimeoutSec == Finite(TimeBudget.TimeoutMs(params.timeoutMs) / 1000.0);
    assert |goal.candidates| == |params.candidates| by { GoalExact(params); }
    hide GoalOf, TimeBudget.TimeoutMs;
    GraspPipeline.TaskFields(goal, index, env);
  }

  /** An annotated box with a positive extent on every axis reaches the planner as it is. */
  lemma SkillBox(params: Params, index: nat, env: GraspPipeline.Env)
    requires index < |params.candidates| && GraspPipeline.Box(GoalOf(params), index, env).Some?
    requires params.box.Some? && params.box.value.dims.Some?
    requires var d := params.box.value.dims.value; d.x > 0.0 && d.y > 0.0 && d.z > 0.0
    ensures var task, box := GraspPipeline.TaskOf(GoalOf(params), index, env), params.box.value;
            var position := if box.hasCenter && box.centerPosition.Some? then box.centerPosition.value else Vec3(0.0, 0.0, 0.0);
            var turn := if box.hasCenter && box.centerOrientation.Some? then box.centerOrientation.value else Quat(1.0, 0.0, 0.0, 0.0);
            task.dims == box.dims.value && task.center == PoseToIsometry(Pose(position, turn))
  {
    hide GraspPipeline.TaskOf, GraspPipeline.Box, PoseToIsometry, FirstText, TextOr, AboveZeroOr;
    var goal := GoalOf(params);
    GoalExact(params);
    assert CandidateOf(params.candidates[index], params.box, goal.candidates[index]);
    hide GoalOf;
    GraspPipeline.TaskExact(goal, index, env);
    hide GraspPipeline.TargetFor, TargetResolution.Resolve, TimeBudget.EvenShare;
  }

  // ---- results ----

  datatype ObjectPlanningResult = ObjectPlanningResult(
    reference: ObjectReference, frame: string, graspPose: Pose, preGraspPose: Option<Isometry>,
    graspIk: JointState, preGraspIk: JointState)

  datatype SkillError =
    | NoCandidates
    | CallFailed
    | PlanningError(code: ErrorCode)
    | NoGrasps
    | InvalidIndex(index: nat)
    | InvalidGraspIk(targetId: string)
    | InvalidPreGraspIk(targetId: string)

  datatype SkillResult = Ok(results: seq<ObjectPlanningResult>) | Err(error: SkillError)

  predicate ValidIk(s: JointState) {
    s.positions != [] && |s.names| == |s.positions|
  }

  /** What is wrong with a returned grasp, if anything. */
  function Defect(candidates: nat, g: RankedGrasp): Option<SkillError> {
    if g.candidateIndex >= candidates then Some(InvalidIndex(g.candidateIndex))
    else if !ValidIk(g.graspIk) then Some(InvalidGraspIk(g.targetId))
    else if !ValidIk(g.preGraspIk) then Some(InvalidPreGraspIk(g.targetId))
    else None
  }

  ghost predicate Intact(params: Params, grasps: seq<RankedGrasp>) {
    forall i :: 0 <= i < |grasps| ==> Defect(|params.candidates|, grasps[i]).None?
  }

  /** The result for a grasp refers to the object the caller listed at the grasp's candidate index. */
  predicate RefersTo(params: Params, g: RankedGrasp, r: ObjectPlanningResult) {
    && g.candidateIndex < |params.candidates| && r.reference == params.candidates[g.candidateIndex]
    && r.frame == g.frame && r.graspPose == g.graspPose && r.preGraspPose == g.preGraspPose
    && r.graspIk == g.graspIk && r.preGraspIk == g.preGraspIk
  }

  /** What the action call brings back: nothing, or the result of the goal. */
  type ActionCall = Goal -> Option<GraspAction.ActionResult>

  method Execute(params: Params, call: ActionCall) returns (r: SkillResult)
    ensures params.candidates == [] <==> r == Err(NoCandidates)
    ensures params.candidates != [] ==> var reply := call(GoalOf(params));
            && (r == Err(CallFailed) <==> reply.None?)
            && (reply.Some? && reply.value.error != Success ==> r == Err(PlanningError(reply.value.error)))
            && (reply.Some? && reply.value.error == Success && reply.value.grasps == [] ==> r == Err(NoGrasps))
            && (r.Ok? <==> reply.Some? && reply.value.error == Success && reply.value.grasps != [] && Intact(params, reply.value.grasps))
            && (r.Ok? ==>
                  |r.results| == |reply.value.grasps|
                  && forall i :: 0 <= i < |r.results| ==> RefersTo(params, reply.value.grasps[i], r.results[i]))
            // the first defective grasp names the error
            && (reply.Some? && reply.value.error == Success ==>
                  forall i :: 0 <= i < |reply.value.grasps| && Intact(params, reply.value.grasps[..i]) ==>
                    var defect := Defect(|params.candidates|, reply.value.grasps[i]);
                    defect.Some? ==> r == Err(defect.value))
  {
    if params.candidates == [] {
      return Err(NoCandidates);
    }
    var goal := CreatePlanGraspsGoal(params);
    var reply := call(goal);
    if reply.None? {
      return Err(CallFailed);
    }
    if reply.value.error != Success {
      return Err(PlanningError(reply.value.error));
    }
    if reply.value.grasps == [] {
      return Err(NoGrasps);
    }
    r := MapGrasps(params, reply.value.grasps);
  }

  /** The loop over the ranked grasps: it stops at the first one with a defect. */
  method MapGrasps(params: Params, grasps: seq<RankedGrasp>) returns (r: SkillResult)
    ensures r.Ok? <==> Intact(params, grasps)
    ensures r.Ok? <==> forall g :: g in grasps ==>
              && g.candidateIndex < |params.candidates|
              && 0 < |g.graspIk.positions| == |g.graspIk.names| && 0 < |g.preGraspIk.positions| == |g.preGraspIk.names|
    ensures r.Ok? ==> |r.results| == |grasps| && forall i :: 0 <= i < |grasps| ==> RefersTo(params, grasps[i], r.results[i])
    ensures forall i :: 0 <= i < |grasps| && Intact(params, grasps[..i]) ==>
              Defect(|params.candidates|, grasps[i]).Some? ==> r == Err(Defect(|params.candidates|, grasps[i]).value)
    ensures r.Err? ==> r.error.InvalidIndex? || r.error.InvalidGraspIk? || r.error.InvalidPreGraspIk?
  {
    var results := [];
    for i := 0 to |grasps|
      invariant |results| == i && forall j :: 0 <= j < i ==> RefersTo(params, grasps[j], results[j])
      invariant forall j :: 0 <= j < i ==> Defect(|params.candidates|, grasps[j]).None?
    {
      var g := grasps[i];
      var error := None;
      if g.candidateIndex >= |params.candidates| {
        error := Some(InvalidIndex(g.candidateIndex));
      } else if g.graspIk.positions == [] || |g.graspIk.names| != |g.graspIk.positions| {
        error := Some(InvalidGraspIk(g.targetId));
      } else if g.preGraspIk.positions == [] || |g.preGraspIk.names| != |g.preGraspIk.positions| {
        error := Some(InvalidPreGraspIk(g.targetId));
      }
      if error.Some? {
        FirstDefect(params, grasps, i);
        return Err(error.value);
      }
      results := results +
        [ObjectPlanningResult(params.candidates[g.candidateIndex], g.frame, g.graspPose, g.preGraspPose, g.graspIk, g.preGraspIk)];
    }
    return Ok(results);
  }

  lemma FirstDefect(params: Params, grasps: seq<RankedGrasp>, i: nat)
    requires i < |grasps| && Defect(|params.candidates|, grasps[i]).Some?
    requires forall j :: 0 <= j < i ==> Defect(|params.candidates|, grasps[j]).None?
    ensures !Intact(params, grasps)
    ensures forall k :: 0 <= k < |grasps| && Intact(params, grasps[..k]) && Defect(|params.candidates|, grasps[k]).Some? ==> k == i
  {
  }

  // ---- end to end ----

  /** The protobuf list of candidates holds fewer than 2^31 entries. */
  const MAX_REPEATED := 0x8000_0000

  /**
   From the parameters through the server and back: for every grasp of a successful goal the
   index check passes, and the reference the skill returns with it is the one whose id or name
   was resolved, in the scene its candidate was planned in, to the grasp's target.
   */
  lemma ReferenceMatchesTarget(params: Params, envs: seq<GraspPipeline.Env>, grasps: seq<RankedGrasp>,
                               g: RankedGrasp, r: ObjectPlanningResult)
    requires |params.candidates| < MAX_REPEATED
    requires GraspAction.IsResult(GoalOf(params), envs, grasps) && g in grasps
    ensures g.candidateIndex < |params.candidates| == |envs|
    ensures !(Defect(|params.candidates|, g).Some? && Defect(|params.candidates|, g).value.InvalidIndex?)
    ensures RefersTo(params, g, r) ==>
              g.targetId == TargetResolution.Resolve(envs[g.candidateIndex].sceneIds, TargetIdOf(r.reference))
  {
    hide GraspAction.IsResult, TargetResolution.Resolve;
    assert |GoalOf(params).candidates| == |params.candidates|;
    ResultEnvs(GoalOf(params), envs, grasps);
    GraspAction.ResultOrigin(GoalOf(params), envs, grasps, g);
  }

  lemma ResultEnvs(goal: Goal, envs: seq<GraspPipeline.Env>, grasps: seq<RankedGrasp>)
    requires GraspAction.IsResult(goal, envs, grasps)
    ensures |envs| == |goal.candidates|
  {
  }

  /**
   Nothing the server does makes the skill fail on a successful goal with at least one candidate,
   except joint states whose names and positions do not match.
   */
  lemma SuccessfulGoalMaps(params: Params, envs: seq<GraspPipeline.Env>, grasps: seq<RankedGrasp>)
    requires 0 < |params.candidates| < MAX_REPEATED && GraspAction.IsResult(GoalOf(params), envs, grasps)
    ensures 1 <= |grasps| <= GoalOf(params).maxNumGrasps
    ensures GraspAction.DistinctKeys(grasps)
    ensures Intact(params, grasps) <==> forall g :: g in grasps ==> ValidIk(g.graspIk) && ValidIk(g.preGraspIk)
  {
    ResultEnvs(GoalOf(params), envs, grasps);
    hide GraspAction.IsResult;
    GraspAction.ResultSize(GoalOf(params), envs, grasps);
    GraspAction.ResultKeysDistinct(GoalOf(params), envs, grasps);
    hide GraspAction.DistinctKeys;
    forall g | g in grasps
      ensures g.candidateIndex < |params.candidates|
    {
      GraspAction.ResultOrigin(GoalOf(params), envs, grasps, g);
    }
    forall i | 0 <= i < |grasps|
      ensures Defect(|params.candidates|, grasps[i]).None? <==> ValidIk(grasps[i].graspIk) && ValidIk(grasps[i].preGraspIk)
    {
      assert grasps[i] in grasps;
    }
  }
}
