/**
 The whole way of a grasp: from the parameters of the skill to a solution of the planner, through
 sorting and cutting on the server, and back to the reference the caller named.
 */
module GraspRoundTrip {
  import opened Wrappers
  import opened GraspMessages
  import opened GraspPipeline
  import opened GraspOrigins
  import GraspAction
  import GraspSkill
  import Ranking

  /** Every grasp of a successful goal is made from an accepted solution of the candidate it names. */
  lemma GraspSolution(goal: Goal, envs: seq<Env>, grasps: seq<RankedGrasp>, g: RankedGrasp) returns (ctx: Context, s: Solution, n: nat)
    requires GraspAction.IsResult(goal, envs, grasps) && g in grasps && |goal.candidates| <= UINT32
    ensures |envs| == |goal.candidates| && g.candidateIndex < |envs|
    ensures var env := envs[g.candidateIndex];
            && Graspable(goal, g.candidateIndex, env)
            && ctx.armJoints == env.robot.value.groups[goal.groupName].joints
            && ctx.retract == (if goal.retractDistM.Positive() then goal.retractDistM else Finite(0.05))
            && s in Answer(goal, g.candidateIndex, env).solutions && Accepts(ctx, s) && GraspFrom(ctx, s, n, g)
  {
    var k, lists := MaxGrasps(goal.maxNumGrasps), GraspAction.Lists(goal, envs, |envs|);
    var early :| GraspAction.RanksAll(goal, envs, early) && grasps == Ranking.Take(k, early);
    hide Ranking.Concat, GraspAction.Lists, Ranking.Ranked;
    assert g in multiset(early);
    var c := Ranking.ConcatFrom(lists, g);
    assert |lists| == |envs| by { GraspAction.ListsLength(goal, envs); }
    assert Graspable(goal, c, envs[c]);
    GraspAction.ListGrasps(goal, envs, c);
    ctx, s, n := CandidateSolution(goal, envs, c, g);
    hide Graspable;
  }

  lemma CandidateSolution(goal: Goal, envs: seq<Env>, c: nat, g: RankedGrasp) returns (ctx: Context, s: Solution, n: nat)
    requires |envs| == |goal.candidates| && c < |envs| && Graspable(goal, c, envs[c])
    requires c < |GraspAction.Lists(goal, envs, |envs|)| && g in GraspAction.Lists(goal, envs, |envs|)[c]
    ensures var env := envs[c];
            && ctx.armJoints == env.robot.value.groups[goal.groupName].joints
            && ctx.retract == (if goal.retractDistM.Positive() then goal.retractDistM else Finite(0.05))
            && s in Answer(goal, c, env).solutions && Accepts(ctx, s) && GraspFrom(ctx, s, n, g)
  {
    var env := envs[c];
    var all := GraspsFor(goal, c, env);
    assert g in all;
    n :| 0 <= n < |all| && all[n] == g;
    var outcome := Answer(goal, c, env).solutions;
    ctx := ContextFor(goal, TargetFor(goal, c, env), c, env.robot.value);
    GoalGraspsExact(goal, c, env, outcome);
    hide GraspsFor, GraspFrom, Accepts, Box, TargetFor;
    s := AcceptedOnly(ctx, outcome)[n];
  }

  /**
   End to end: the result the skill returns for a grasp carries the reference at the index of its
   candidate, the pose and arm positions of an accepted solution for that candidate, and as the
   state before it the start of that solution's approach, or else the state that reaches the pose
   backed off by the retract distance.
   */
  lemma ResultSolution(params: GraspSkill.Params, envs: seq<Env>, grasps: seq<RankedGrasp>, g: RankedGrasp,
                       r: GraspSkill.ObjectPlanningResult) returns (ctx: Context, s: Solution)
    requires |params.candidates| < GraspSkill.MAX_REPEATED
    requires GraspAction.IsResult(GraspSkill.GoalOf(params), envs, grasps) && g in grasps && GraspSkill.RefersTo(params, g, r)
    ensures var goal, c := GraspSkill.GoalOf(params), g.candidateIndex;
            && |envs| == |goal.candidates| == |params.candidates| && c < |envs|
            && r.reference == params.candidates[c]
            && Graspable(goal, c, envs[c]) && s in Answer(goal, c, envs[c]).solutions && Accepts(ctx, s)
            && ctx.armJoints == envs[c].robot.value.groups[goal.groupName].joints && ctx.retract == goal.retractDistM
    ensures r.frame == s.target.value.frame && r.graspPose == s.target.value.pose
    ensures r.graspIk == JointState(ctx.armJoints, s.armPositions) && r.preGraspIk.names == ctx.armJoints
    ensures forall start :: StartsAt(s, start) ==> r.preGraspIk.positions == start.armPositions
    ensures (forall start :: !StartsAt(s, start)) ==>
              s.inverseKinematics(BackedOff(s.target.value, ctx.retract)) == Some(r.preGraspIk.positions)
  {
    var goal, n := GraspSkill.GoalOf(params), 0;
    GraspSkill.SkillGoalNeedsNoDefaults(params);
    assert |goal.candidates| == |params.candidates| by { GraspSkill.GoalExact(params); }
    hide GraspSkill.GoalOf, GraspAction.IsResult;
    ctx, s, n := GraspSolution(goal, envs, grasps, g);
    hide Graspable, Answer, StartsAt, BackedOff;
  }
}
