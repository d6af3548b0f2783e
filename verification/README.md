# Verification of the MoveIt planning workspace

This project models three connected parts of the workspace in Dafny and proves properties of them.

1. **Scene synchronization** (`moveit_scene_synchronizer.cpp`). Seven linked maps and sets, guarded by one
   mutex, mirror the World into MoveIt's planning scene by ADD, MOVE and REMOVE messages; a one-slot mailbox
   connects the TF callback with a background thread.
2. **The grasp action** (`moveit_plan_grasp_skill.cpp`, `moveit_planning_node.cpp`,
   `grasp_planning_pipeline.cpp`). The skill builds a goal; the server resolves target names, divides the time
   budget, plans candidate by candidate, cuts each list, ranks and cuts again; the skill maps the ranked grasps
   back to the references it was given.
3. **Grasp geometry** (`generate_box_grasp_poses.cpp`, `object_geometry.cpp`). Quaternions to rotations, the
   least bounding box of an object, and grasp poses on the faces of a box.

`dafny verify dfyconfig.toml` checks everything.

## How the model is built

| files | what they hold |
|---|---|
| `Wrappers`, `Names`, `Geometry` | optional values and doubles with non-finite values; frame and mesh names; vectors, quaternions, rigid motions |
| `SceneStore`, `SceneFetch` | the guarded state as a value, and the effect of each locked region on it |
| `SceneItems`, `SceneContents`, `SceneTransforms` | the items of a World reply, the contents of ADD and MOVE messages and the renaming of a TF message, each in terms of what came in |
| `SceneLog` | what a log of scene messages says by itself, and when it asks for a MOVE |
| `SceneRuns`, `SceneAgreement` | runs of any number of threads, one locked region per step, and what every run keeps |
| `ScenePublishing`, `SceneShapes`, `SceneRemoval` | what the topic may show after any publication order; the shapes of an ADD against those of a later MOVE; a removal against the fetches under way |
| `SyncMailbox` | the mailbox and its runs |
| `SceneSynchronizer` | the class with the fields of the source; its methods are proved against the values above, and each whole call keeps `Valid()` |
| `SceneTargets` | tracked frames as the names a grasp target is looked up among |
| `ObjectGeometry`, `BoxGraspPoses` | bounding boxes and box grasp poses |
| `GraspMessages`, `Ranking`, `TargetResolution`, `TimeBudget` | action messages, ranking, name resolution, time-outs |
| `GraspPipeline`, `GraspAction`, `GraspSkill` | one candidate, one goal, and the skill around it |
| `GraspOrigins`, `GraspRoundTrip` | which solution a grasp is made from and what it takes from it; the way from the skill's parameters and back |

All arithmetic is over real numbers. A `double` that may be NaN or infinite on arrival is the datatype
`Double`. The clock, the World's replies, the planning scene's replies, the robot model, the MTC solutions,
`acos` and the glTF decoder are inputs. A rotation matrix of a quaternion is written rationally (divided by the
squared norm), and a yaw step is a unit cosine/sine pair whose n-th power is the identity. A hash set has no
order: an iteration is some enumeration of it, and the pose lists of a message are maps from mesh id to pose.

Two views of concurrency are used. `SceneRuns.Exec` interleaves locked regions and lets each thread publish its
messages later, from an outbox; statements about the order of commits hold there for every interleaving.
`SceneSynchronizer.Valid` treats each call as one step, with messages published before the next call starts.

## Where the code and its documentation differ

The model follows the code.

* `moveit_scene_synchronizer.hpp:64` describes the list of a scoped pass as frame ids. The code looks the same
  list up as object names in the World and as frame names in the tracked set; names the TF callback discovers
  contain no slash and frame names always do, so a scoped pass adds nothing
  (`SceneAgreement.NameScopedPassIsSilent`). New objects reach the planning scene through passes without a list.
* The same list, when empty, makes the fetch ask for everything but the ADD pass add nothing.
* `moveit_planning_service/README.md:75` says the action returns the valid grasps of its candidates. One
  candidate without a grasp aborts the goal (`GraspAction.Execute`).
* The action client waits at most 305 seconds for a result, however long a time-out the skill was given; the
  server's budget has no upper limit (`TimeBudget.ResultWaitCoversBudget`).

## Properties found false, with their exact condition

* The scene the topic describes can show a frame that is no longer tracked, because messages are published
  after the lock is released. Every publication order of the outstanding messages ends in agreement exactly when,
  for every untracked frame, no outbox ends in an ADD of it, and a frame the topic shows already is still
  mentioned by an outbox (`ScenePublishing.AgreementIff`, from `ShowableIff` for one frame). For a caller: a
  removal is safe exactly when no other thread's outbox ends in an ADD of the frame
  (`ScenePublishing.RemovalGuard`). `ScenePublishing.OverlapBreaksAgreement` is a failing run from every quiet
  state with a tracked frame; calls that do not overlap always agree (`ScenePublishing.PublishedAgreement`).
* After a scoped pass the scene and the tracked set agree exactly when the list covers what was missing
  (`SceneAgreement.AgreementAfterAdd`).
* A MOVE need not have poses for the shapes its frame was added with. List by list (meshes and primitives), it has
  exactly when the frame was added since its last removal, all its meshes decoded then, and since then no fetch has
  recorded a new id under it or put one of its ids into the mesh cache (`SceneShapes.MoveMatchesAdd`).
  `SceneShapes.RecachedIdLosesItsPose` is a run that fails by the cache alone: a one-member primitive set is added,
  then the World gives the same geometry as a mesh, which has the same id; the next MOVE lists it as a mesh.
* A removed frame can come back without being in the World or the stream, from a fetch that was under way. It stays
  out of the maps and out of the scene until another fetch starts exactly when no fetch under way still has an item of
  it (`SceneRemoval.RemovalHoldsIff`); once back and shown, only another removal of it takes it away
  (`SceneRemoval.BackUntilRemoved`).
* The generated grasp poses are pairwise different exactly when no valid surface is listed twice
  (`BoxGraspPoses.PosesDistinct`, `GraspPipeline.TaskPosesDistinct`): the surface filter keeps repeats.
* ADD and MOVE taken from the same maps carry equally many mesh poses exactly when every mesh decodes
  (`SceneRuns.AddAndMoveAgree`).
* A pass of the background thread is a full one exactly when no names were queued since its last pass
  (`SyncMailbox.FullPassIff`); without a timer there is one at all exactly when the thread is faster than the
  first discovery (`SyncMailbox.FullPassOnlyFirst`).
* Rescaling a quaternion leaves the pose unchanged exactly when the norm threshold treats both alike or the
  quaternion is real (`Geometry.PoseToIsometryScale`).
* The order in which the scene lists its objects matters exactly when the prefix rule decides between two of
  them (`TargetResolution.OrderIndependence`), and "/x" and "x" mean the same object exactly when "/x" is not in
  the scene and some rule fires (`TargetResolution.LeadingSlash`).
* Cutting each candidate's list early is lossless exactly when every dropped grasp has k kept ones at least as
  good (`Ranking.CutEarlyExact`; for one list, when nothing behind the cut is better than anything before it,
  `Ranking.OneListLossless`). Lists in order of quality meet that, others may or may not;
  `GraspPipeline.DearFirstLoses` is an input on which the pipeline loses its best grasp.

## Model

| member | source | states |
|---|---|---|
| `Names.StripTfPrefixes` | moveit_planning_service/src/moveit_scene_synchronizer.cpp:115-125 | the scan over the prefixes removes the first applicable non-empty prefix, once |
| `Names.StripFirstApplicable` | moveit_planning_service/src/moveit_scene_synchronizer.cpp:118-123 | when prefix i is the first that applies, putting it back in front of the result gives the frame: exactly that prefix was cut, no later one |
| `Names.StripNoneApplicable` | moveit_planning_service/src/moveit_scene_synchronizer.cpp:117-124 | a frame no prefix applies to is returned unchanged |
| `Names.FrameOfMeshId` | moveit_planning_service/src/moveit_scene_synchronizer.cpp:409-413 | a mesh id built from a slash-free inner name determines its frame |
| `Names.FrameOfPrimitiveId` | moveit_planning_service/src/moveit_scene_synchronizer.cpp:530-534 | so does the numbered id of a member of a primitive set |
| `Names.FrameNameWellNamed` | moveit_planning_service/src/moveit_scene_synchronizer.cpp:392-410 | a frame built for an object that is not excluded carries the prefix, a slash, and a first segment that is not excluded (which frame it is: `SceneItems.ItemsExact`) |
| `Names.FirstSegmentIs` | moveit_planning_service/src/moveit_scene_synchronizer.cpp:223-224 | the object name of a frame is the one slash-free prefix that ends at the first slash or at the end |
| `Names.LastSegmentIs` | moveit_planning_service/src/moveit_scene_synchronizer.cpp:392-397 | the short name of an object is the one slash-free suffix that starts behind the last slash or at the start |
| `Names.DecimalIsNumeral` | moveit_planning_service/src/moveit_scene_synchronizer.cpp:530-534 | numbers in ids are written as usual decimal numerals, without leading zeros |
| `Geometry.RotationOfIsRotation` | moveit_planning_service/src/generate_box_grasp_poses.cpp:40-43 | for every non-zero quaternion the normalised matrix is orthogonal with determinant one |
| `Geometry.RotationIsConjugation` | moveit_planning_service/src/generate_box_grasp_poses.cpp:40-43 | that matrix rotates every vector the way the quaternion does: q v q* is the squared norm times the rotated vector |
| `Geometry.PoseToIsometryRigid` | moveit_planning_service/src/generate_box_grasp_poses.cpp:36-46 | for every pose, also with a zero quaternion, the result is a proper rigid motion with the pose's translation |
| `Geometry.RotationScaleInvariant` | moveit_planning_service/src/generate_box_grasp_poses.cpp:43 | any non-zero multiple of a quaternion, also its negation, gives the same rotation |
| `Geometry.RotationIsIdentityIff` | moveit_planning_service/src/generate_box_grasp_poses.cpp:43 | a non-zero quaternion does not rotate exactly when its vector part is zero |
| `Geometry.PoseToIsometryScale` | moveit_planning_service/src/generate_box_grasp_poses.cpp:42-44 | with the threshold in place: a rescaled quaternion gives the same pose exactly when both lie on the same side of it or the vector part is zero; negation always does above it |
| `Geometry.ComposeRigid` | moveit_planning_service/src/generate_box_grasp_poses.cpp:229 | rigid motions are closed under composition |
| `Geometry.InverseCancels` | moveit_planning_service/src/grasp_planning_pipeline.cpp:727-728 | the inverse used for the pre-grasp pose cancels every rigid motion |
| `Geometry.InverseCancelsRight` | moveit_planning_service/src/grasp_planning_pipeline.cpp:727-728 | and on the other side: a pose taken into a rigid frame and seen from there is the pose again |
| `ObjectGeometry.FirstBoxPrimitive` | moveit_planning_service/src/object_geometry.cpp:28-50 | finds a box exactly when a well-formed BOX primitive with positive dimensions exists, and returns the first one: its three dimensions in order, at the pose of the same index |
| `ObjectGeometry.MeshBounds` | moveit_planning_service/src/object_geometry.cpp:54-76 | after the nested loops the corners contain every transformed vertex of every mesh and each of the six faces carries one |
| `ObjectGeometry.ComputeObjectBoundingBox` | moveit_planning_service/src/object_geometry.cpp:24-90 | the answer is the one that `BoxOf` describes: the first valid primitive, else the least axis-aligned box around all vertices, none exactly without vertices or without extent on some axis |
| `ObjectGeometry.BoxUnique` | moveit_planning_service/src/object_geometry.cpp:24-90 | that description leaves a single answer for every object |
| `ObjectGeometry.TouchedIsLeast` | moveit_planning_service/src/object_geometry.cpp:72-74 | a containing box touched on all faces lies inside every other containing box |
| `ObjectGeometry.TightFlat` | moveit_planning_service/src/object_geometry.cpp:81-84 | a tight box has no extent on an axis exactly when all vertices agree there |
| `ObjectGeometry.BoundingBoxSound` | moveit_planning_service/src/object_geometry.cpp:86-89 | every bounding box has a rigid centre frame and positive dimensions |
| `ObjectGeometry.VerticesAre` | moveit_planning_service/src/object_geometry.cpp:57-71 | the vertices that count are those of every mesh at the pose of the same index, or as they are where there is none |
| `ObjectGeometry.MeshBoxIs` | moveit_planning_service/src/object_geometry.cpp:78-89 | without a valid BOX the dimensions are greatest minus least coordinate on each axis and the centre is their middle, and there is a box exactly when all three are positive |
| `BoxGraspPoses.GenerateBoxGraspPoses.constructor` | moveit_planning_service/src/generate_box_grasp_poses.cpp:48-55 | a fresh generator holds no solution and has spawned nothing |
| `BoxGraspPoses.GenerateBoxGraspPoses.OnNewSolution` | moveit_planning_service/src/generate_box_grasp_poses.cpp:117-138 | a solution is queued exactly when the object or its whole entity has a frame; the object name changes only to that entity, and a failure is spawned otherwise |
| `BoxGraspPoses.GenerateBoxGraspPoses.Compute` | moveit_planning_service/src/generate_box_grasp_poses.cpp:140-248 | takes one upstream solution and appends exactly the poses for the configured box, the configured number of rotations (four if it is not positive) and the configured surfaces (all six if there are none), or nothing when the solution has no scene or no model |
| `BoxGraspPoses.GenerateBoxGraspPoses.SpawnSurfaces` | moveit_planning_service/src/generate_box_grasp_poses.cpp:180-247 | the outer loop appends the poses of the valid surfaces in order and skips the others |
| `BoxGraspPoses.GenerateBoxGraspPoses.SpawnFace` | moveit_planning_service/src/generate_box_grasp_poses.cpp:220-246 | the inner loop appends one pose per yaw step, each with the yaw power of its index |
| `BoxGraspPoses.RotationsByAngle` | moveit_planning_service/src/generate_box_grasp_poses.cpp:186-227 | the face matrices and the yaw matrix are Rodrigues' rotations about the axes and by the angles of the source |
| `BoxGraspPoses.NextRotation` | moveit_planning_service/src/generate_box_grasp_poses.cpp:220-229 | each pose of a face is the previous one turned one step about its own z axis |
| `BoxGraspPoses.FirstRotation` | moveit_planning_service/src/generate_box_grasp_poses.cpp:220-229 | the first pose of a face is not turned |
| `BoxGraspPoses.FaceCentreIs` | moveit_planning_service/src/generate_box_grasp_poses.cpp:186-215 | the origin lies half an extent from the centre of the box, against the z axis of the face rotation |
| `BoxGraspPoses.YawPeriodic` | moveit_planning_service/src/generate_box_grasp_poses.cpp:171-172 | n steps make a full turn: pose i + n would be pose i |
| `BoxGraspPoses.YawDistinct` | moveit_planning_service/src/generate_box_grasp_poses.cpp:220-223 | the n yaw angles are pairwise different for a step of exactly one n-th of a turn |
| `BoxGraspPoses.GraspTransformRigid` | moveit_planning_service/src/generate_box_grasp_poses.cpp:225-229 | every generated transform is a proper rigid motion, its origin the face centre, its z axis the inward face normal |
| `BoxGraspPoses.BackOffLeavesBox` | moveit_planning_service/src/generate_box_grasp_poses.cpp:186-229 | backing off along the tool axis by any positive distance leaves the closed box |
| `BoxGraspPoses.PosesInOrder` | moveit_planning_service/src/generate_box_grasp_poses.cpp:180-247 | the list is exactly the valid surfaces times the rotations: its length is the product and entry k n + i is rotation i of valid surface k |
| `BoxGraspPoses.EveryPoseSound` | moveit_planning_service/src/generate_box_grasp_poses.cpp:180-247 | every entry is rigid, sits on its face, and has all its back-offs outside the box |
| `BoxGraspPoses.PosesDistinct` | moveit_planning_service/src/generate_box_grasp_poses.cpp:180-247 | on a box with positive dimensions the targets in the generated list are pairwise different exactly when no valid surface is listed twice |
| `BoxGraspPoses.PosesEmptyIff` | moveit_planning_service/src/generate_box_grasp_poses.cpp:174-178 | nothing is generated exactly when surfaces are given and none of them is valid |
| `BoxGraspPoses.FilterSurfaces` | moveit_planning_service/src/grasp_planning_pipeline.cpp:353-361 | the pipeline's filter keeps the valid surfaces in order and falls back to all six; its result is never empty |
| `BoxGraspPoses.ValidOnlyKeeps` | moveit_planning_service/src/grasp_planning_pipeline.cpp:353-358 | a surface is kept exactly when it is listed and between 0 and 5 |
| `BoxGraspPoses.FilteredPosesNonEmpty` | moveit_planning_service/src/grasp_planning_pipeline.cpp:353-363 | after the filter there is one pose per kept surface and rotation, so at least one |
| `BoxGraspPoses.FallbackPreGraspIndependentOfWorld` | moveit_planning_service/src/grasp_planning_pipeline.cpp:706-728 | going to the world, backing off and coming back gives the grasp pose times the back-off, whatever rigid pose the object has in the world |
| `BoxGraspPoses.FallbackPreGraspOutside` | moveit_planning_service/src/grasp_planning_pipeline.cpp:706-728 | so the fallback pre-grasp point of a generated grasp is outside the box |
| `SceneStore.RepeatSuppressed` | moveit_planning_service/src/moveit_scene_synchronizer.cpp:736-754 | re-sending the last published pose is suppressed exactly when the deltas exceed the self-distance; for a quaternion of norm at least one, exactly when both are positive |
| `SceneStore.AlignmentNegation` | moveit_planning_service/src/moveit_scene_synchronizer.cpp:744-748 | the deadband does not distinguish a quaternion from its negation, and is symmetric |
| `SceneStore.DeltaMonotone` | moveit_planning_service/src/moveit_scene_synchronizer.cpp:746-749 | the better aligned of two orientations has the smaller rotation delta |
| `SceneFetch.FetchTwice` | moveit_planning_service/src/moveit_scene_synchronizer.cpp:374-554 | when every mesh download succeeds, fetching an unchanged world a second time leaves the state as it is and downloads nothing |
| `SceneFetch.ApplyAllWrites` | moveit_planning_service/src/moveit_scene_synchronizer.cpp:466-471 | for every pass, whatever downloads fail: it leaves the last pose and solid recorded for each id and touches neither the last-pose nor the last-time map |
| `SceneFetch.ApplyAllTracks` | moveit_planning_service/src/moveit_scene_synchronizer.cpp:469-470 | for every pass: the ids it records are merged into the sets of their frames and none is lost |
| `SceneFetch.ApplyAllCaches` | moveit_planning_service/src/moveit_scene_synchronizer.cpp:440-464 | for every pass: cached bytes are kept, new ones are downloads of this pass, and every recorded mesh ends up cached |
| `SceneFetch.ItemsNamed` | moveit_planning_service/src/moveit_scene_synchronizer.cpp:374-413 | every record of every World reply is for a frame outside the excluded namespaces, and with slash-free inner names its id determines that frame |
| `SceneItems.ItemsExact` | moveit_planning_service/src/moveit_scene_synchronizer.cpp:374-551 | an item is recorded for a reply exactly when some collision geometry of a named entity asks for it: frame = prefix, last segment of the stripped object name, slash, entity name; id = slash, frame, slash, inner name (numbered in a set of several); pose = the matrix or identity; mesh reference or solid of the shape |
| `SceneItems.CollectConcat` | moveit_planning_service/src/moveit_scene_synchronizer.cpp:374-391 | the nested loops keep the order of the reply: what earlier elements give is recorded first |
| `SceneContents.FetchHolds` | moveit_planning_service/src/moveit_scene_synchronizer.cpp:466-543 | after a fetch the maps hold the pose, and without cached bytes the solid, of the last item recorded for each id |
| `SceneContents.SceneShowsReply` | moveit_planning_service/src/moveit_scene_synchronizer.cpp:599-613 | after a fetch and through every run until a fetch records again, each ADD and each MOVE of a frame carries, for every id recorded, the pose the matrix of the reply gave last (identity without one), with the cached bytes or the solid of the shape it came with |
| `SceneContents.AddMessagesExact` | moveit_planning_service/src/moveit_scene_synchronizer.cpp:584-664 | an ADD pass makes one message per listed tracked frame, in order, with for each id its cached bytes (if they decode) or its solid, at its recorded pose |
| `SceneLog.SpacedWindow` | moveit_planning_service/src/moveit_scene_synchronizer.cpp:724-732 | moves at least a period apart put at most floor(T rate) + 1 of them into a closed window of length T |
| `SceneLog.LogWindow` | moveit_planning_service/src/moveit_scene_synchronizer.cpp:724-732 | lifted to a whole log with removals: that many per stretch between two removals |
| `SceneRuns.CacheWriteOnce` | moveit_planning_service/src/moveit_scene_synchronizer.cpp:440-464 | under any interleaving of locked regions, bytes once cached for a mesh id never change |
| `SceneRuns.MapsLinked` | moveit_planning_service/src/moveit_scene_synchronizer.cpp:438-543 | in every reachable state no tracked frame is empty and every id under one has a relative pose and a shape |
| `SceneRuns.StepKeepsMaps` | moveit_planning_service/src/moveit_scene_synchronizer.cpp:438-701 | every single locked region keeps that link, also with workers stopped between their regions |
| `SceneRuns.NothingSkipped` | moveit_planning_service/src/moveit_scene_synchronizer.cpp:599-613 | so the lookups of an ADD or MOVE never miss: the mesh and primitive entries of a frame partition its ids |
| `SceneRuns.AddAndMoveAgree` | moveit_planning_service/src/moveit_scene_synchronizer.cpp:599-613 | ADD and MOVE from the same maps carry the same pose per shape, equally many primitive poses, and equally many mesh poses exactly when every mesh decodes |
| `SceneRuns.NeverExcluded` | moveit_planning_service/src/moveit_scene_synchronizer.cpp:398-410 | in every reachable state every tracked frame has the prefix, a slash, and a namespace that is not excluded |
| `SceneRuns.FramesShareNoIds` | moveit_planning_service/src/moveit_scene_synchronizer.cpp:411-413 | with slash-free inner names different frames never share a mesh id, in every reachable state |
| `SceneRuns.ItemAlone` | moveit_planning_service/src/moveit_scene_synchronizer.cpp:438-471 | the locked regions of one item run back to back have exactly the effect of the item |
| `SceneRuns.FetchAlone` | moveit_planning_service/src/moveit_scene_synchronizer.cpp:374-554 | a fetch nobody interleaves with is the sequential recording of its items: the interleaved model refines to the sequential one |
| `SceneAgreement.LogFolds` | moveit_planning_service/src/moveit_scene_synchronizer.cpp:681-790 | in every reachable state, under any interleaving: the last-pose and last-time maps have the same domain, lie inside the tracked set and hold the latest MOVE of each frame since its last REMOVE, and the scene of the committed log is inside the tracked set |
| `SceneAgreement.StepKeepsLog` | moveit_planning_service/src/moveit_scene_synchronizer.cpp:681-790 | every single locked region keeps that invariant |
| `SceneAgreement.RateBound` | moveit_planning_service/src/moveit_scene_synchronizer.cpp:724-732 | in any run, with a clock that may go backwards, a window of length T holds at most floor(T rate) + 1 MOVE messages of a frame that is never removed, and that many per stretch otherwise |
| `SceneAgreement.NoDrift` | moveit_planning_service/src/moveit_scene_synchronizer.cpp:734-787 | after an update that has a transform for a tracked frame, a period or more after its latest MOVE, the pose published last equals the transform or differs by less than both thresholds, in plain arithmetic on the log |
| `SceneAgreement.MoveSentIff` | moveit_planning_service/src/moveit_scene_synchronizer.cpp:713-787 | in every reachable state an update commits a MOVE for a tracked frame and its first transform exactly when the log has none since the last REMOVE, or the latest is at least 1/rate old (any rate of zero or less will do) and position or rotation moved by at least its threshold; it is stamped now, in the parent frame and at the pose of that transform |
| `SceneAgreement.UpdateSends` | moveit_planning_service/src/moveit_scene_synchronizer.cpp:713-787 | the same in any state whose maps and log agree, and nothing is sent for a frame that is untracked or has no transform |
| `SceneAgreement.UpdateMessagesExact` | moveit_planning_service/src/moveit_scene_synchronizer.cpp:714-790 | an update publishes one MOVE for each moving frame, from its first matching transform, and never two for a frame |
| `SceneAgreement.AgreementAfterAdd` | moveit_planning_service/src/moveit_scene_synchronizer.cpp:573-583 | directly after a pass without a list the scene of the log equals the tracked set; after a pass with a list exactly when it names every tracked frame that was missing |
| `SceneAgreement.NameScopedPassIsSilent` | moveit_planning_service/src/moveit_scene_synchronizer.cpp:223-224 | in every reachable state an ADD pass over names without a slash publishes nothing |
| `SceneAgreement.DiscoveredBatchAddsNothing` | moveit_planning_service/src/moveit_scene_synchronizer.cpp:245-308 | so whatever batch of discovered names the background thread takes, its ADD pass publishes nothing |
| `ScenePublishing.PublishedAgreement` | moveit_planning_service/src/moveit_scene_synchronizer.cpp:668-677 | when calls do not overlap and nothing is left to publish, the topic has seen the committed log and its scene is inside the tracked set |
| `ScenePublishing.ShowableIff` | moveit_planning_service/src/moveit_scene_synchronizer.cpp:668-700 | in any state, some publication order of the outstanding messages ends with a frame shown exactly when some outbox ends, for it, in an ADD, or none mentions it and it is shown already |
| `ScenePublishing.AgreementIff` | moveit_planning_service/src/moveit_scene_synchronizer.cpp:668-700 | every publication order ends with the topic showing tracked frames only, exactly when that holds for no untracked frame |
| `ScenePublishing.RemovalGuard` | moveit_planning_service/src/moveit_scene_synchronizer.cpp:681-701 | after a removal every publication order hides the frame, exactly when no other outbox ended in an ADD of it before the call |
| `ScenePublishing.OverlapBreaksAgreement` | moveit_planning_service/src/moveit_scene_synchronizer.cpp:690-700 | when they do overlap this fails: from every quiet reachable state with a tracked frame a removal can overtake an ADD |
| `SceneShapes.StepLatest` | moveit_planning_service/src/moveit_scene_synchronizer.cpp:560-701 | each locked region changes the latest ADD of a frame exactly by an ADD pass that covers it or by its removal |
| `SceneShapes.StepIds` | moveit_planning_service/src/moveit_scene_synchronizer.cpp:466-543 | unless a frame is removed its ids only grow, and exactly when a fetch records an id it did not have |
| `SceneShapes.StepCached` | moveit_planning_service/src/moveit_scene_synchronizer.cpp:440-471 | while the ids of a frame stay the same those listed as meshes only grow, and exactly when a fetch puts one of them into the cache |
| `SceneShapes.MoveMatchesAdd` | moveit_planning_service/src/moveit_scene_synchronizer.cpp:599-773 | in every reachable state the mesh list and the primitive list of a MOVE hold exactly the ids of the two lists of the latest ADD of its frame, exactly when there is one since the last removal, its meshes all decoded, and since then no fetch recorded a new id or cached an old one |
| `SceneShapes.RecachedIdLosesItsPose` | moveit_planning_service/src/moveit_scene_synchronizer.cpp:530-534 | a run where only the last of these conditions fails: the ADD lists its one id as a primitive, the MOVE lists it as a mesh and has no primitive pose |
| `SceneRemoval.RemovalHoldsIff` | moveit_planning_service/src/moveit_scene_synchronizer.cpp:681-701 | after a removal, in any state, the frame stays untracked in every continuation without a new fetch, and likewise stays hidden from the scene, exactly when no fetch under way still has an item of it |
| `SceneRemoval.CanRecord` | moveit_planning_service/src/moveit_scene_synchronizer.cpp:415-543 | from any state, a fetch that still has an item of a frame can go on, its downloads succeeding, to track it without another fetch |
| `SceneRemoval.BackUntilRemoved` | moveit_planning_service/src/moveit_scene_synchronizer.cpp:560-701 | a frame that is tracked and shown stays so through every run that does not remove it |
| `SyncMailbox.MailConserved` | moveit_planning_service/src/moveit_scene_synchronizer.cpp:245-299 | over any run the batches taken followed by the pending list are, in order, all names ever queued, and a pending list has the wake-up flag set |
| `SyncMailbox.FreshIffQuiet` | moveit_planning_service/src/moveit_scene_synchronizer.cpp:66-68 | the mailbox asks for a full pass exactly while nothing has been queued, taken or shut down |
| `SyncMailbox.FullPassOnlyFirst` | moveit_planning_service/src/moveit_scene_synchronizer.cpp:275-299 | without a timer there is at most one full background pass, and there is one exactly when the thread takes the slot before the first discovery and before shutdown |
| `SyncMailbox.FullPassIff` | moveit_planning_service/src/moveit_scene_synchronizer.cpp:275-299 | with or without a timer, whenever the thread takes the slot it makes a full pass exactly when no names were queued since it last took it |
| `SyncMailbox.TakesIff` | moveit_planning_service/src/moveit_scene_synchronizer.cpp:275-299 | the thread takes the slot exactly before shutdown, and then for the timer, for names queued since it last took it, or for the first time |
| `SyncMailbox.BatchWasQueued` | moveit_planning_service/src/moveit_scene_synchronizer.cpp:297-299 | every name in a batch was queued by some callback |
| `SceneSynchronizer.SceneSynchronizer.constructor` | moveit_planning_service/src/moveit_scene_synchronizer.cpp:66-81 | a new synchronizer is empty, valid, and its mailbox asks for a full pass |
| `SceneSynchronizer.SceneSynchronizer.FetchMesh` | moveit_planning_service/src/moveit_scene_synchronizer.cpp:438-471 | one referenced mesh: cached bytes are kept, a failed download records nothing, at most one download |
| `SceneSynchronizer.SceneSynchronizer.FetchPrimitives` | moveit_planning_service/src/moveit_scene_synchronizer.cpp:478-544 | one primitive set: unsupported members are skipped but keep their number; nothing is downloaded |
| `SceneSynchronizer.SceneSynchronizer.FetchInner` | moveit_planning_service/src/moveit_scene_synchronizer.cpp:391-551 | one inner geometry is recorded as the items of the reply say, nothing for an excluded object |
| `SceneSynchronizer.SceneSynchronizer.Fetch` | moveit_planning_service/src/moveit_scene_synchronizer.cpp:356-558 | asks for the listed names, or for everything without any; fails, changing nothing, exactly when the World does not answer; otherwise records all items of the reply (`SceneItems.ItemsExact`), counts its downloads and keeps the class invariant |
| `SceneSynchronizer.SceneSynchronizer.Snapshot` | moveit_planning_service/src/moveit_scene_synchronizer.cpp:592-613 | the loop over the ids of a frame finds every mesh (cached bytes come first) and every primitive that has a pose, each with the pose recorded for its id, and nothing else |
| `SceneSynchronizer.SceneSynchronizer.AddCollisionObjectsToScene` | moveit_planning_service/src/moveit_scene_synchronizer.cpp:560-678 | publishes one ADD per listed tracked frame, in order, each with every shape of the frame at its recorded pose, changes no map, keeps the invariant, and after a pass without a list the scene equals the tracked set |
| `SceneSynchronizer.SceneSynchronizer.RemoveCollisionObject` | moveit_planning_service/src/moveit_scene_synchronizer.cpp:681-701 | forgets the frame in the three maps, keeps its meshes cached, publishes one REMOVE and keeps the invariant |
| `SceneSynchronizer.SceneSynchronizer.UpdateFrame` | moveit_planning_service/src/moveit_scene_synchronizer.cpp:714-788 | the scan over the transforms stops at the first match and publishes and records one MOVE exactly when the period has passed and the pose has changed enough, or nothing was sent before; otherwise it changes nothing |
| `SceneSynchronizer.SceneSynchronizer.UpdateCollisionObjects` | moveit_planning_service/src/moveit_scene_synchronizer.cpp:704-796 | for any iteration order the new maps are those of updating all frames at once, the messages follow the order, each tracked frame gets a MOVE exactly when its first transform asks for one after those already published, and the invariant is kept |
| `SceneSynchronizer.SceneSynchronizer.QueueNames` | moveit_planning_service/src/moveit_scene_synchronizer.cpp:244-256 | the discovered names go behind those waiting and the flag is set, exactly when there are any |
| `SceneSynchronizer.SceneSynchronizer.TakeBatch` | moveit_planning_service/src/moveit_scene_synchronizer.cpp:297-299 | the batch is what was pending; the slot and the flag are cleared |
| `SceneSynchronizer.SceneSynchronizer.SyncRound` | moveit_planning_service/src/moveit_scene_synchronizer.cpp:297-309 | one round of the background thread: a batch whose fetch fails is dropped and nothing else changes; otherwise the reply is recorded and the frames of the batch are added, all of them without one, and then the scene equals the tracked set |
| `SceneSynchronizer.SceneSynchronizer.SyncService` | moveit_planning_service/src/moveit_scene_synchronizer.cpp:159-180 | the trigger service succeeds exactly when the World answers, records its reply then, and in both cases adds every tracked frame once, so that the scene equals the tracked set |
| `SceneSynchronizer.SceneSynchronizer.RemoveVanished` | moveit_planning_service/src/moveit_scene_synchronizer.cpp:237-242 | every known frame missing from the message is removed, each once and with its own reading of the clock, and no other |
| `SceneSynchronizer.SceneSynchronizer.ReadTransforms` | moveit_planning_service/src/moveit_scene_synchronizer.cpp:197-235 | the loop over a TF message renames every transform, and collects the frames it is for and the objects of those not known before |
| `SceneTransforms.FirstRenamed` | moveit_planning_service/src/moveit_scene_synchronizer.cpp:197-219 | renaming keeps which transform is the first for a frame, its pose, and the frames its two names stand for |
| `SceneTransforms.FramesOfMessage` | moveit_planning_service/src/moveit_scene_synchronizer.cpp:210-219 | the frames of a message are those its child names stand for |
| `SceneTransforms.ObjectsOfMessage` | moveit_planning_service/src/moveit_scene_synchronizer.cpp:220-225 | the objects discovered are exactly those of children of frames not known before |
| `SceneSynchronizer.SceneSynchronizer.OnTfMessage` | moveit_planning_service/src/moveit_scene_synchronizer.cpp:190-260 | on the message as it came: removes exactly the frames no child name stands for any more, queues exactly the objects named before the first slash by children of frames not known before, each once, and publishes for each frame left the MOVE its first transform asks for, in the frame the parent name stands for, or none |
| `SceneTargets.ObjectNameResolves` | moveit_planning_service/src/grasp_planning_pipeline.cpp:111-153 | in every reachable state of the synchronizer, for any frame prefix: a target that is the prefix and an object name, with or without a leading slash, resolves to a tracked frame of that object exactly when there is one, to its whole entity when tracked, and never to an excluded object |
| `Ranking.CutEarlyExact` | moveit_planning_service/src/moveit_planning_node.cpp:143-162 | however ties are broken, ranking the lists cut to k and cutting again gives the same qualities as ranking everything and cutting once, exactly when every dropped grasp has k kept ones at least as good |
| `Ranking.OneListLossless` | moveit_planning_service/src/grasp_planning_pipeline.cpp:768-770 | for one candidate that means that nothing behind the cut is better than anything before it |
| `Ranking.CutEarlyLosesNothing` | moveit_planning_service/src/moveit_planning_node.cpp:143-162 | so for candidate lists in order of quality the early cut loses nothing |
| `Ranking.LeftOutNoBetter` | moveit_planning_service/src/moveit_planning_node.cpp:143-162 | when the early cut is lossless no grasp left out at either cut is better than one returned, and when fewer than k are returned none was left out |
| `Ranking.DescendingUnique` | moveit_planning_service/src/moveit_planning_node.cpp:151-154 | a multiset of qualities has one descending arrangement, so the ranking of an unstable sort is determined up to ties |
| `TargetResolution.ResolveTargetObjectId` | moveit_planning_service/src/grasp_planning_pipeline.cpp:111-153 | the four scans return the resolved name for every list and target |
| `TargetResolution.ResolveByPriority` | moveit_planning_service/src/grasp_planning_pipeline.cpp:118-152 | it is the first match of the highest-priority rule that fires, and the target itself when none does |
| `TargetResolution.ResolveOnNames` | moveit_planning_service/src/grasp_planning_pipeline.cpp:114-152 | for x or /x the answer is the target itself if listed, else x, else x/whole, else the first name under x/, else the target |
| `TargetResolution.ResolveUnchangedIff` | moveit_planning_service/src/grasp_planning_pipeline.cpp:114-152 | the answer is a scene id or the target; it is the target exactly when that is empty, in the scene, or matched by no rule |
| `TargetResolution.ResolveIdempotent` | moveit_planning_service/src/grasp_planning_pipeline.cpp:111-153 | resolving twice is resolving once |
| `TargetResolution.OrderIndependence` | moveit_planning_service/src/grasp_planning_pipeline.cpp:143-150 | the order of the scene's list plays no part exactly when the target is empty, the prefix rule does not decide, or all its matches are equal |
| `TargetResolution.LeadingSlash` | moveit_planning_service/src/grasp_planning_pipeline.cpp:125-133 | for a name x without a leading slash, /x and x resolve alike exactly when /x is not in the scene and some rule fires for x |
| `TimeBudget.SharesSumToTotal` | moveit_planning_service/src/grasp_planning_pipeline.cpp:155-165 | on a goal of the skill the server's fallback never applies, the shares of all candidates sum to the total and those of fewer to less |
| `TimeBudget.CandidateShare` | moveit_planning_service/src/grasp_planning_pipeline.cpp:155-165 | the share of a candidate times their number is the time-out of the goal, or five seconds where it has none |
| `TimeBudget.ThreeWaitsBounded` | moveit_plan_grasp_skill/src/moveit_plan_grasp_skill/moveit_plan_grasp_skill.cpp:232-264 | for every double the client's three waits together stay within 315 seconds, and reach that exactly above 299999 ms |
| `TimeBudget.WaitsExact` | moveit_plan_grasp_skill/src/moveit_plan_grasp_skill/moveit_plan_grasp_skill.cpp:232-264 | the wait for the result is the time-out rounded up to whole milliseconds plus five seconds, 305 seconds at most, and 20 without a proper time-out; the two waits before it are the same without the extra, five seconds at most |
| `TimeBudget.ResultWaitCoversBudget` | moveit_plan_grasp_skill/src/moveit_plan_grasp_skill/moveit_plan_grasp_skill.cpp:61-67 | the wait for the result covers the whole budget plus five seconds exactly when the requested time-out is at most 300 seconds |
| `TimeBudget.LongRequestOutlastsClient` | moveit_plan_grasp_skill/src/moveit_plan_grasp_skill/moveit_plan_grasp_skill.cpp:312-313 | a request of 310 seconds: the client gives up after 305 while the candidates may take 310 |
| `GraspPipeline.FindIsFirst` | moveit_planning_service/src/grasp_planning_pipeline.cpp:50-67 | the recursive search returns the first solution of the stage in the preorder of the whole tree |
| `GraspPipeline.CollectGrasps` | moveit_planning_service/src/grasp_planning_pipeline.cpp:664-776 | the loop with its early exits returns the first k of all grasps the solutions yield (which these are: `GraspOrigins.GraspsExact`) |
| `GraspPipeline.GraspsNumbered` | moveit_planning_service/src/grasp_planning_pipeline.cpp:741-760 | all grasps of a candidate carry its index and resolved target, and their ids differ |
| `GraspPipeline.QualityOrder` | moveit_planning_service/src/grasp_planning_pipeline.cpp:746-747 | a cheaper solution has at least the quality of a dearer one, strictly more for non-negative costs |
| `GraspPipeline.GraspsRanked` | moveit_planning_service/src/grasp_planning_pipeline.cpp:664-776 | when the planner delivers its cheapest solutions first the list of a candidate is ranked |
| `GraspPipeline.DearFirstLoses` | moveit_planning_service/src/grasp_planning_pipeline.cpp:664-770 | a dear solution before a cheap one: with room for one grasp the better one is lost, and the condition for a lossless cut fails |
| `GraspPipeline.FallbackPreGrasp` | moveit_planning_service/src/grasp_planning_pipeline.cpp:706-733 | without an approach state the reported pre-grasp pose is the grasp pose backed off by the retract distance, wherever the object is; for an infinite distance there is no finite pose |
| `GraspPipeline.FallbackPreGraspOutsideBox` | moveit_planning_service/src/grasp_planning_pipeline.cpp:706-733 | and for a grasp pose the box generator spawned a finite one lies outside the box |
| `GraspPipeline.PrepareTask` | moveit_planning_service/src/grasp_planning_pipeline.cpp:249-399 | the stages before planning: what is asked of the planner when all pass, and exactly which error each of them reports |
| `GraspPipeline.ExtractGrasps` | moveit_planning_service/src/grasp_planning_pipeline.cpp:537-797 | the stages after planning: joint groups, gripper states, the collected grasps, and the exceptions in between |
| `GraspPipeline.PlanGrasps` | moveit_planning_service/src/grasp_planning_pipeline.cpp:249-810 | success exactly when every stage passes and nothing throws, with the first k grasps; each error code exactly for the stage that fails first |
| `GraspPipeline.SuccessfulGrasps` | moveit_planning_service/src/grasp_planning_pipeline.cpp:779-792 | success yields between one and k grasps of this candidate with pairwise different ids |
| `GraspPipeline.TaskExact` | moveit_planning_service/src/grasp_planning_pipeline.cpp:249-399 | what the planner is asked, in terms of the goal and the scene: the groups and frames or their defaults, a share of the time-out of which the candidates have one each, the candidate's own box or that of the first scene object of its id, every valid surface (all six without one), rotations, retract distance and number of grasps |
| `GraspOrigins.GraspsExact` | moveit_planning_service/src/grasp_planning_pipeline.cpp:664-776 | the grasps of a candidate are made from the accepted solutions, one each and in order: frame, pose and arm positions of the solution, as pre-grasp the start of the first approach in preorder, or else the state that reaches the backed-off pose; a solution is rejected exactly when it is unusable, has no target, or has neither |
| `GraspOrigins.InFrameIs` | moveit_planning_service/src/grasp_planning_pipeline.cpp:727-733 | seen from a rigid frame of the target, the pre-grasp pose is that pose of the world |
| `GraspOrigins.GoalGraspsExact` | moveit_planning_service/src/grasp_planning_pipeline.cpp:537-776 | for a goal the joints are those of its group, the retract distance its own or the default, and the solutions those of the planner |
| `GraspOrigins.GraspableExact` | moveit_planning_service/src/grasp_planning_pipeline.cpp:249-810 | a candidate yields grasps exactly when it is named and has a box, the robot is equipped for the goal, the planner answers, one of its solutions is accepted, and nothing throws |
| `GraspPipeline.TaskBoxSound` | moveit_planning_service/src/grasp_planning_pipeline.cpp:300-351 | the box handed to the planner has a rigid centre frame and positive dimensions, whether given or computed |
| `GraspPipeline.TaskPosesSound` | moveit_planning_service/src/grasp_planning_pipeline.cpp:353-363 | for every candidate that reaches the planner the generator yields surfaces times rotations poses, at least one, all sound |
| `GraspPipeline.TaskPosesDistinct` | moveit_planning_service/src/grasp_planning_pipeline.cpp:353-363 | they are pairwise different exactly when the goal lists no valid surface twice; the six surfaces of the fallback never collide |
| `GraspAction.HandleGoal` | moveit_planning_service/src/moveit_planning_node.cpp:73-103 | a goal is accepted exactly when the scene is ready, it has candidates, and each has a target id |
| `GraspAction.SortByQuality` | moveit_planning_service/src/moveit_planning_node.cpp:151-154 | the result is a permutation in descending order of quality |
| `GraspAction.Execute` | moveit_planning_service/src/moveit_planning_node.cpp:112-173 | exactly one final state: canceled, aborted or succeeded, decided by the first candidate that sees a cancel request or yields nothing; the i-th feedback is i of the number of candidates; the abort for an empty ranking needs a goal without candidates; success returns a ranking of all cut lists, cut to k |
| `GraspAction.ResultSize` | moveit_planning_service/src/moveit_planning_node.cpp:156-172 | a successful goal returns between one and k grasps, best first |
| `GraspAction.ResultExact` | moveit_planning_service/src/moveit_planning_node.cpp:143-162 | whatever order the planners answer in, the result has the qualities of the k best of all grasps of all candidates exactly when each grasp beyond the k-th of its candidate has k kept ones at least as good |
| `GraspAction.ResultLosesNothing` | moveit_planning_service/src/moveit_planning_node.cpp:143-162 | with planners that answer in order of cost that is always so, and nothing left out is better than anything returned |
| `GraspAction.ResultOrigin` | moveit_planning_service/src/moveit_planning_node.cpp:130-145 | every returned grasp names a candidate of the goal and carries that candidate's resolved target |
| `GraspAction.ResultKeysDistinct` | moveit_planning_service/src/moveit_planning_node.cpp:143-162 | candidate index and grasp id together are unique after sorting and cutting |
| `GraspSkill.CreatePlanGraspsGoal` | moveit_plan_grasp_skill/src/moveit_plan_grasp_skill/moveit_plan_grasp_skill.cpp:48-158 | the goal built by the loops and branches has the stated default for every absent or invalid parameter and one candidate per reference, in order |
| `GraspSkill.GoalExact` | moveit_plan_grasp_skill/src/moveit_plan_grasp_skill/moveit_plan_grasp_skill.cpp:48-158 | which parameter feeds which field of the goal and what stands in for it: texts, time-out, durations, distances, box annotations, and for each reference the id or else the name |
| `GraspSkill.SkillTask` | moveit_plan_grasp_skill/src/moveit_plan_grasp_skill/moveit_plan_grasp_skill.cpp:48-118 | from the parameters to the planner: group, gripper, retract distance, rotations and number of grasps of the task |
| `GraspSkill.SkillShares` | moveit_plan_grasp_skill/src/moveit_plan_grasp_skill/moveit_plan_grasp_skill.cpp:60-67 | the time-outs of the tasks of all candidates make up the time-out of the parameters |
| `GraspSkill.SkillBox` | moveit_plan_grasp_skill/src/moveit_plan_grasp_skill/moveit_plan_grasp_skill.cpp:119-158 | an annotated box with positive extents reaches the planner as it is, at the annotated centre |
| `GraspSkill.SkillGoalAccepted` | moveit_plan_grasp_skill/src/moveit_plan_grasp_skill/moveit_plan_grasp_skill.cpp:110-118 | the server accepts it exactly when its scene is ready, there is a candidate, and each reference has an id or a name |
| `GraspSkill.SkillGoalNeedsNoDefaults` | moveit_plan_grasp_skill/src/moveit_plan_grasp_skill/moveit_plan_grasp_skill.cpp:48-87 | no default of the server for group, end effector, retract distance, number of grasps or time-out applies to it |
| `GraspSkill.Execute` | moveit_plan_grasp_skill/src/moveit_plan_grasp_skill/moveit_plan_grasp_skill.cpp:293-379 | the skill succeeds exactly on a successful, non-empty reply without defects, one result per grasp with the reference at the grasp's candidate index; otherwise the first defect names the error |
| `GraspSkill.MapGrasps` | moveit_plan_grasp_skill/src/moveit_plan_grasp_skill/moveit_plan_grasp_skill.cpp:348-379 | the loop succeeds exactly when every grasp has a valid index and two joint states with equally many names and positions, at least one; it stops at the first that has not |
| `GraspSkill.ReferenceMatchesTarget` | moveit_plan_grasp_skill/src/moveit_plan_grasp_skill/moveit_plan_grasp_skill.cpp:348-378 | end to end: for every grasp of a successful goal the index check passes and the returned reference is the one whose id or name was resolved to the grasp's target |
| `GraspSkill.SuccessfulGoalMaps` | moveit_plan_grasp_skill/src/moveit_plan_grasp_skill/moveit_plan_grasp_skill.cpp:348-378 | on a successful goal the skill can fail only for joint states whose names and positions do not match |
| `GraspRoundTrip.GraspSolution` | moveit_planning_service/src/moveit_planning_node.cpp:112-173 | every grasp of a successful goal is made from an accepted solution of the candidate whose index it carries |
| `GraspRoundTrip.ResultSolution` | moveit_plan_grasp_skill/src/moveit_plan_grasp_skill/moveit_plan_grasp_skill.cpp:348-379 | end to end: the result of the skill carries the reference of that candidate, the pose and arm positions of that solution, and as the state before it the start of its approach, or else the state that reaches the backed-off pose |

## Left out

* ROS, gRPC and Zenoh plumbing, executors, parameters, launch files, status monitoring, static transforms, the
  readiness loop and the motion-planning stub: no content to prove beyond cascades.
* MoveIt Task Constructor, path planning and inverse kinematics: the solutions of a candidate are an input; that
  usable ones have finite costs, cheapest first, is a stated assumption of the ranking theorems.
* glTF decoding, compression and triangle data: one uninterpreted success test; a mesh is its vertices.
* The matrix-to-quaternion conversion `isometry_to_pose`, the AffineTransform3d of `ref_t_shape`, and floating
  point rounding: generated poses stay rigid motions, arithmetic is exact.
* NaN or infinite coordinates in transforms, poses and dimensions. The time-out, the retract distance, the gripper
  time and the costs keep theirs.
* What the arm kinematics does with a pre-grasp pose that is not finite: its answer is an input.
* The order of the pose lists inside one message: they are maps from mesh id to pose.
* The header fields of `OnTfMessage` transforms other than the two frame names, and the diagnostics that are only logged.
* The gripper postures, approach and retreat messages of a grasp: field copies; only the error conditions of the
  named gripper states are modelled.
* GraspAction.Execute: the synchronization that precedes it when a goal is accepted is not part of it; its failure
  is only logged by the source.
* The tail of the skill after its results are mapped: writing frames to the World and filling the response proto,
  and the mapping of error codes to status texts.
* TimeBudget.ResultWaitCoversBudget: exact reals; the double rounding of `timeout_ms / 1000.0 * 1000.0` may move
  the client's ceiling by one millisecond.
