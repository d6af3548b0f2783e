/** The action messages that travel between the skill and the planning server. */
module GraspMessages {
  import opened Wrappers
  import opened Geometry

  datatype JointState = JointState(names: seq<string>, positions: seq<real>)

  /** The candidate's dimensions are used only when all three are positive. */
  datatype Candidate = Candidate(targetId: string, dims: Vec3, center: Pose)

  datatype Goal = Goal(
    groupName: string, endEffectorGroup: string, toolFrame: string,
    planningTimeoutSec: Double, gripperMotionSec: Double, retractDistM: Double,
    surfaces: seq<int>, numRotations: int, maxNumGrasps: int,
    candidates: seq<Candidate>)

  /** Both poses are in the frame of the object; the pre-grasp pose is absent where its coordinates are not finite. */
  datatype RankedGrasp = RankedGrasp(
    candidateIndex: nat, targetId: string, id: string, quality: real,
    frame: string, graspPose: Pose, preGraspPose: Option<Isometry>,
    graspIk: JointState, preGraspIk: JointState)

  datatype ErrorCode =
    | Success
    | Failure
    | Preempted
    | InvalidObjectName
    | InvalidGroupName
    | InvalidRobotState
    | PlanningFailed

  /** `max_num_grasps`, with its default of one. */
  function MaxGrasps(requested: int): (k: nat)
    ensures k >= 1
  {
    if requested > 0 then requested else 1
  }

  const UINT32 := 0x1_0000_0000
}
