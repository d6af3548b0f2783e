/**
 The planning action on the server: which goals are accepted, how the candidates are worked off,
 and in which state, with which result, the goal ends (`moveit_planning_node.cpp`).
 */
module GraspAction {
  import opened Wrappers
  import opened GraspMessages
  import opened GraspPipeline
  import opened Ranking

  // ---- goal acceptance ----

  ghost predicate Accepted(sceneReady: bool, goal: Goal) {
    sceneReady && goal.candidates != [] && forall i :: 0 <= i < |goal.candidates| ==> goal.candidates[i].targetId != ""
  }

  method HandleGoal(sceneReady: bool, goal: Goal) returns (accept: bool)
    ensures accept <==> Accepted(sceneReady, goal)
  {
    if !sceneReady || goal.candidates == [] {
      return false;
    }
    for i := 0 to |goal.candidates|
      invariant forall j :: 0 <= j < i ==> goal.candidates[j].targetId != ""
    {
      if goal.candidates[i].targetId == "" {
        return false;
      }
    }
    return true;
  }

  // ---- the goal handle ----

  datatype GoalState = Executing | Canceling | Canceled | Aborted | Succeeded

  datatype ActionResult = ActionResult(grasps: seq<RankedGrasp>, error: ErrorCode)

  datatype Feedback = Feedback(completed: nat, total: nat)

  /** A goal handle leaves the active states once; a transition out of a final state is an error of the caller. */
  class GoalHandle {
    var state: GoalState
    var feedback: seq<Feedback>
    var result: Option<ActionResult>

    constructor ()
      ensures state == Executing && feedback == [] && result == None
    {
      state, feedback, result := Executing, [], None;
    }

    predicate Active()
      reads this
    {
      state.Executing? || state.Canceling?
    }

    /** A cancel request is always accepted; it has an effect only on an active goal. */
    method RequestCancel()
      modifies this`state
      ensures state == if old(state).Executing? then Canceling else old(state)
    {
      if state.Executing? {
        state := Canceling;
      }
    }

    method PublishFeedback(f: Feedback)
      requires Active()
      modifies this`feedback
      ensures feedback == old(feedback) + [f]
    {
      feedback := feedback + [f];
    }

    method Cancel(r: ActionResult)
      requires state.Canceling? && result.None?
      modifies this`state, this`result
      ensures state == Canceled && result == Some(r)
    {
      state, result := Canceled, Some(r);
    }

    method Abort(r: ActionResult)
      requires Active() && result.None?
      modifies this`state, this`result
      ensures state == Aborted && result == Some(r)
    {
      state, result := Aborted, Some(r);
    }

    method Succeed(r: ActionResult)
      requires Active() && result.None?
      modifies this`state, this`result
      ensures state == Succeeded && result == Some(r)
    {
      state, result := Succeeded, Some(r);
    }
  }

  // ---- sorting ----

  method InsertByQuality(g: RankedGrasp, sorted: seq<RankedGrasp>) returns (r: seq<RankedGrasp>)
    requires Ranked(sorted)
    ensures Ranked(r) && multiset(r) == multiset(sorted) + multiset{g}
  {
    hide Ranked;
    var i := 0;
    while i < |sorted| && sorted[i].quality >= g.quality
      invariant i <= |sorted| && forall j :: 0 <= j < i ==> sorted[j].quality >= g.quality
    {
      i := i + 1;
    }
    r := sorted[..i] + [g] + sorted[i..];
    InsertedRanked(g, sorted, i);
    assert sorted == sorted[..i] + sorted[i..];
    assert multiset(r) == multiset(sorted[..i]) + multiset{g} + multiset(sorted[i..]);
  }

  lemma InsertedRanked(g: RankedGrasp, sorted: seq<RankedGrasp>, i: nat)
    requires Ranked(sorted) && i <= |sorted|
    requires forall j :: 0 <= j < i ==> sorted[j].quality >= g.quality
    requires i < |sorted| ==> g.quality >= sorted[i].quality
    ensures Ranked(sorted[..i] + [g] + sorted[i..])
  {
  }

  /** Any sort by descending quality will do: ties come out in any order. */
  method SortByQuality(gs: seq<RankedGrasp>) returns (sorted: seq<RankedGrasp>)
    ensures Ranked(sorted) && multiset(sorted) == multiset(gs)
  {
    hide Ranked;
    sorted := [];
    EmptyRanked();
    for i := 0 to |gs|
      invariant Ranked(sorted) && multiset(sorted) == multiset(gs[..i])
    {
      assert gs[..i + 1] == gs[..i] + [gs[i]];
      sorted := InsertByQuality(gs[i], sorted);
    }
    assert gs[..|gs|] == gs;
  }

  lemma EmptyRanked()
    ensures Ranked([])
  {
  }

  // ---- executing a goal ----

  /** Candidate i is worked off: no cancellation was seen before it, and it yields grasps. */
  ghost predicate Done(goal: Goal, envs: seq<Env>, requests: seq<bool>, i: nat)
    requires i < |goal.candidates| == |envs| && |requests| == |goal.candidates| + 1
  {
    !requests[i] && Graspable(goal, i, envs[i])
  }

  /** The goal stops at this candidate: all before it are worked off, it is not. */
  ghost predicate StopsAt(goal: Goal, envs: seq<Env>, requests: seq<bool>, stop: nat)
    requires |goal.candidates| == |envs| && |requests| == |goal.candidates| + 1
  {
    && stop <= |goal.candidates|
    && (forall i :: 0 <= i < stop ==> Done(goal, envs, requests, i))
    && (stop < |goal.candidates| ==> !Done(goal, envs, requests, stop))
  }

  /** All grasps of a candidate, as if nobody had cut its list. */
  ghost function Yield(goal: Goal, i: nat, env: Env): seq<RankedGrasp>
    requires i < |goal.candidates|
  {
    if Graspable(goal, i, env) then GraspsFor(goal, i, env) else []
  }

  /** What the first n candidates contribute, each list cut to k. */
  ghost function Lists(goal: Goal, envs: seq<Env>, n: nat): seq<seq<RankedGrasp>>
    requires n <= |goal.candidates| == |envs|
  {
    seq(n, i requires 0 <= i < n => Take(MaxGrasps(goal.maxNumGrasps), Yield(goal, i, envs[i])))
  }

  ghost predicate AllGraspable(goal: Goal, envs: seq<Env>)
    requires |envs| == |goal.candidates|
  {
    forall i :: 0 <= i < |envs| ==> Graspable(goal, i, envs[i])
  }

  /** A result of a successful goal: some ranking of all the cut lists, cut to k. */
  ghost predicate IsResult(goal: Goal, envs: seq<Env>, grasps: seq<RankedGrasp>) {
    |envs| == |goal.candidates| && AllGraspable(goal, envs)
    && exists early :: RanksAll(goal, envs, early) && grasps == Take(MaxGrasps(goal.maxNumGrasps), early)
  }

  ghost predicate RanksAll(goal: Goal, envs: seq<Env>, early: seq<RankedGrasp>)
    requires |envs| == |goal.candidates|
  {
    Ranked(early) && multiset(early) == multiset(Concat(Lists(goal, envs, |envs|)))
  }

  function Progress(n: nat, total: nat): seq<Feedback> {
    seq(n, i requires 0 <= i < n => Feedback((i + 1) % UINT32, total % UINT32))
  }

  /**
   The execution of a goal. Candidate i sees the environment envs[i]; requests[i] says whether a
   cancel request arrives before the i-th look at the handle, the last entry after all looks.
   */
  method Execute(h: GoalHandle, goal: Goal, envs: seq<Env>, requests: seq<bool>) returns (ghost stop: nat)
    requires h.state.Executing? && h.feedback == [] && h.result.None?
    requires |envs| == |goal.candidates| && |requests| == |goal.candidates| + 1
    modifies h
    ensures StopsAt(goal, envs, requests, stop)
    // exactly one final state, decided by the candidate where the goal stops
    ensures h.state == Canceled <==> stop < |goal.candidates| && requests[stop]
    ensures h.state == Succeeded <==> stop == |goal.candidates| > 0
    ensures h.state == Aborted <==> (stop < |goal.candidates| && !requests[stop]) || |goal.candidates| == 0
    ensures h.result.Some?
    ensures var error := h.result.value.error;
            && (error == Preempted <==> h.state == Canceled)
            && (error == Success <==> h.state == Succeeded)
            && (error == PlanningFailed <==> |goal.candidates| == 0)
            && (error == Failure <==> stop < |goal.candidates| && !requests[stop])
    // one feedback per candidate worked off, counting up
    ensures h.feedback == Progress(stop, |goal.candidates|)
    ensures |h.feedback| == stop
    ensures forall i :: 0 <= i < stop ==> h.feedback[i] == Feedback((i + 1) % 0x1_0000_0000, |goal.candidates| % 0x1_0000_0000)
    // a stopped goal returns what it has, unsorted; a finished one the ranking
    ensures stop < |goal.candidates| ==> h.result.value.grasps == Concat(Lists(goal, envs, stop))
    ensures h.state == Succeeded ==> IsResult(goal, envs, h.result.value.grasps)
  {
    hide Graspable, GraspsFor, Concat, Ranked, Progress;
    ProgressIs(|goal.candidates|);
    var total := |goal.candidates| % UINT32;
    var grasps := [];
    stop := 0;
    NoLists(goal, envs);
    for i := 0 to |goal.candidates|
      invariant h.state.Executing? && h.result.None?
      invariant stop == i && forall j :: 0 <= j < i ==> Done(goal, envs, requests, j)
      invariant grasps == Concat(Lists(goal, envs, i))
      invariant h.feedback == Progress(i, |goal.candidates|)
    {
      if requests[i] {
        h.RequestCancel();
      }
      if h.state.Canceling? {
        h.Cancel(ActionResult(grasps, Preempted));
        return;
      }
      var error, planned := PlanGrasps(goal, i, envs[i]);
      if error != Success {
        h.Abort(ActionResult(grasps, Failure));
        return;
      }
      MoreLists(goal, envs, i);
      grasps := grasps + planned;
      h.PublishFeedback(Feedback((i + 1) % UINT32, total));
      MoreProgress(i, |goal.candidates|);
      stop := i + 1;
    }
    if requests[|goal.candidates|] {
      h.RequestCancel();
    }
    forall i | 0 <= i < |envs|
      ensures Graspable(goal, i, envs[i])
    {
      assert Done(goal, envs, requests, i);
    }
    var sorted := SortByQuality(grasps);
    ghost var early := sorted;
    var k := MaxGrasps(goal.maxNumGrasps);
    if |sorted| > k {
      sorted := sorted[..k];
    }
    if sorted == [] {
      if |goal.candidates| > 0 {
        FirstListNonEmpty(goal, envs);
        SameLength(grasps, []);
        assert false;
      }
      h.Abort(ActionResult(sorted, PlanningFailed));
      return;
    }
    if goal.candidates == [] {
      SameLength(grasps, []);
    }
    assert RanksAll(goal, envs, early) && sorted == Take(k, early);
    h.Succeed(ActionResult(sorted, Success));
  }

  lemma ProgressIs(total: nat)
    ensures Progress(0, total) == []
    ensures forall n: nat :: |Progress(n, total)| == n
    ensures forall n: nat, i :: 0 <= i < n ==> Progress(n, total)[i] == Feedback((i + 1) % 0x1_0000_0000, total % 0x1_0000_0000)
  {
  }

  lemma MoreProgress(n: nat, total: nat)
    ensures Progress(n + 1, total) == Progress(n, total) + [Feedback((n + 1) % UINT32, total % UINT32)]
  {
  }

  lemma NoLists(goal: Goal, envs: seq<Env>)
    requires |goal.candidates| == |envs|
    ensures Concat(Lists(goal, envs, 0)) == []
  {
  }

  lemma MoreLists(goal: Goal, envs: seq<Env>, n: nat)
    requires n < |goal.candidates| == |envs| && Graspable(goal, n, envs[n])
    ensures Concat(Lists(goal, envs, n + 1))
         == Concat(Lists(goal, envs, n)) + Take(MaxGrasps(goal.maxNumGrasps), GraspsFor(goal, n, envs[n]))
  {
    assert Yield(goal, n, envs[n]) == GraspsFor(goal, n, envs[n]);
    hide Graspable, GraspsFor, Yield;
    assert Lists(goal, envs, n + 1)[..n] == Lists(goal, envs, n);
  }

  lemma FirstListNonEmpty(goal: Goal, envs: seq<Env>)
    requires |envs| == |goal.candidates| > 0 && AllGraspable(goal, envs)
    ensures Concat(Lists(goal, envs, |envs|)) != []
  {
  }

  // ---- what a result satisfies ----

  ghost function FullLists(goal: Goal, envs: seq<Env>): seq<seq<RankedGrasp>>
    requires |envs| == |goal.candidates|
  {
    seq(|envs|, i requires 0 <= i < |envs| => Yield(goal, i, envs[i]))
  }

  lemma ListsAreCut(goal: Goal, envs: seq<Env>)
    requires |envs| == |goal.candidates|
    ensures Lists(goal, envs, |envs|) == CutAll(MaxGrasps(goal.maxNumGrasps), FullLists(goal, envs))
  {
  }

  /** A successful goal returns at least one grasp and at most k, best first. */
  lemma ResultSize(goal: Goal, envs: seq<Env>, grasps: seq<RankedGrasp>)
    requires IsResult(goal, envs, grasps) && envs != []
    ensures 1 <= |grasps| <= MaxGrasps(goal.maxNumGrasps) && Ranked(grasps)
  {
  }

  /** Every candidate's planner delivers its cheapest solutions first. */
  ghost predicate PlannersOrdered(goal: Goal, envs: seq<Env>)
    requires |envs| == |goal.candidates| && AllGraspable(goal, envs)
  {
    forall i :: 0 <= i < |envs| ==> CheapestFirst(Answer(goal, i, envs[i]).solutions)
  }

  lemma OrderedLossless(goal: Goal, envs: seq<Env>)
    requires |envs| == |goal.candidates| && AllGraspable(goal, envs) && PlannersOrdered(goal, envs)
    ensures Lossless(MaxGrasps(goal.maxNumGrasps), FullLists(goal, envs))
  {
    var lists := FullLists(goal, envs);
    forall c | 0 <= c < |lists|
      ensures Ranked(lists[c])
    {
      GraspsRanked(ContextFor(goal, TargetFor(goal, c, envs[c]), c, envs[c].robot.value), Answer(goal, c, envs[c]).solutions);
    }
    hide Graspable, GraspsFor, FullLists, Ranked, Lossless;
    RankedLossless(MaxGrasps(goal.maxNumGrasps), lists);
  }

  /**
   When the result is as good as if every candidate had kept all its grasps, whatever order the
   planners answer in: exactly when each grasp beyond the k-th of its candidate has k kept ones at
   least as good.
   */
  lemma ResultExact(goal: Goal, envs: seq<Env>, grasps: seq<RankedGrasp>, full: seq<RankedGrasp>)
    requires IsResult(goal, envs, grasps)
    requires Ranked(full) && multiset(full) == multiset(Concat(FullLists(goal, envs)))
    ensures var k := MaxGrasps(goal.maxNumGrasps);
            Qualities(grasps) == Qualities(Take(k, full)) <==> Lossless(k, FullLists(goal, envs))
  {
    var k, lists := MaxGrasps(goal.maxNumGrasps), FullLists(goal, envs);
    var early :| RanksAll(goal, envs, early) && grasps == Take(k, early);
    ListsAreCut(goal, envs);
    hide AllGraspable, Lists, FullLists, Concat, Ranked, Qualities, CutAll, Take, Lossless;
    CutEarlyExact(k, lists, full, early);
  }

  /**
   With planners that answer in order of cost that is always so, and no grasp left out anywhere on
   the way is better than one returned.
   */
  lemma ResultLosesNothing(goal: Goal, envs: seq<Env>, grasps: seq<RankedGrasp>, full: seq<RankedGrasp>)
    requires IsResult(goal, envs, grasps) && PlannersOrdered(goal, envs)
    requires Ranked(full) && multiset(full) == multiset(Concat(FullLists(goal, envs)))
    ensures Qualities(grasps) == Qualities(Take(MaxGrasps(goal.maxNumGrasps), full))
    ensures forall g, r :: g in multiset(full) - multiset(grasps) && r in grasps ==> g.quality <= r.quality
    ensures |grasps| < MaxGrasps(goal.maxNumGrasps) ==> multiset(grasps) == multiset(full)
  {
    var k, lists := MaxGrasps(goal.maxNumGrasps), FullLists(goal, envs);
    OrderedLossless(goal, envs);
    ResultExact(goal, envs, grasps, full);
    var early :| RanksAll(goal, envs, early) && grasps == Take(k, early);
    ListsAreCut(goal, envs);
    hide AllGraspable, Lists, FullLists, Concat, Ranked, Qualities, CutAll, Take, Lossless;
    LeftOutNoBetter(k, lists, early);
  }

  lemma ListsLength(goal: Goal, envs: seq<Env>)
    requires |envs| == |goal.candidates|
    ensures |Lists(goal, envs, |envs|)| == |envs|
  {
  }

  lemma ListGrasps(goal: Goal, envs: seq<Env>, c: nat)
    requires |envs| == |goal.candidates| && c < |envs| <= UINT32 && Graspable(goal, c, envs[c])
    ensures var list := Lists(goal, envs, |envs|)[c];
            DistinctKeys(list) && forall g :: g in list ==> g.candidateIndex == c && g.targetId == TargetFor(goal, c, envs[c])
  {
    SuccessfulGrasps(goal, c, envs[c]);
    assert Yield(goal, c, envs[c]) == GraspsFor(goal, c, envs[c]);
    hide Graspable, GraspsFor, Yield, TargetFor;
    assert c % UINT32 == c;
  }

  /** Where a returned grasp comes from: the candidate it names, with that candidate's resolved target. */
  lemma ResultOrigin(goal: Goal, envs: seq<Env>, grasps: seq<RankedGrasp>, g: RankedGrasp)
    requires IsResult(goal, envs, grasps) && g in grasps && |goal.candidates| <= UINT32
    ensures g.candidateIndex < |goal.candidates|
    ensures g.targetId == TargetFor(goal, g.candidateIndex, envs[g.candidateIndex])
  {
    var k, lists := MaxGrasps(goal.maxNumGrasps), Lists(goal, envs, |envs|);
    var early :| RanksAll(goal, envs, early) && grasps == Take(k, early);
    hide Concat, Lists, Ranked;
    assert g in multiset(early);
    var c := ConcatFrom(lists, g);
    assert |lists| == |envs| by { ListsLength(goal, envs); }
    assert Graspable(goal, c, envs[c]);
    ListGrasps(goal, envs, c);
    hide Graspable;
  }

  // ---- no grasp is named twice ----

  ghost predicate DistinctKeys(gs: seq<RankedGrasp>) {
    forall i, j :: 0 <= i < j < |gs| ==> gs[i].candidateIndex != gs[j].candidateIndex || gs[i].id != gs[j].id
  }

  /** Candidates below a number have keys with a smaller index than the next one. */
  lemma {:induction false} ConcatDistinct(lists: seq<seq<RankedGrasp>>)
    requires forall c, g :: 0 <= c < |lists| && g in lists[c] ==> g.candidateIndex == c
    requires forall c :: 0 <= c < |lists| ==> DistinctKeys(lists[c])
    ensures DistinctKeys(Concat(lists))
  {
    if lists != [] {
      var n := |lists| - 1;
      var before, last := Concat(lists[..n]), lists[n];
      ConcatDistinct(lists[..n]);
      forall i | 0 <= i < |before|
        ensures before[i].candidateIndex < n
      {
        var c := ConcatFrom(lists[..n], before[i]);
      }
      JoinDistinct(before, last, n);
    }
  }

  lemma JoinDistinct(a: seq<RankedGrasp>, b: seq<RankedGrasp>, n: nat)
    requires DistinctKeys(a) && DistinctKeys(b)
    requires (forall i :: 0 <= i < |a| ==> a[i].candidateIndex < n) && (forall g :: g in b ==> g.candidateIndex == n)
    ensures DistinctKeys(a + b)
  {
  }

  /** An element occurs once in a list with distinct keys. */
  lemma OccursOnce(gs: seq<RankedGrasp>, i: nat)
    requires DistinctKeys(gs) && i < |gs|
    ensures multiset(gs)[gs[i]] == 1
  {
    assert gs == gs[..i] + [gs[i]] + gs[i + 1..];
    assert gs[i] !in gs[..i] && gs[i] !in gs[i + 1..];
  }

  lemma PermutedDistinct(a: seq<RankedGrasp>, b: seq<RankedGrasp>)
    requires DistinctKeys(a) && multiset(a) == multiset(b)
    ensures DistinctKeys(b)
  {
    forall i, j | 0 <= i < j < |b|
      ensures b[i].candidateIndex != b[j].candidateIndex || b[i].id != b[j].id
    {
      assert b[i] in multiset(a) && b[j] in multiset(a);
      var p :| 0 <= p < |a| && a[p] == b[i];
      var q :| 0 <= q < |a| && a[q] == b[j];
      if p == q {
        OccursOnce(a, p);
        OccursTwice(b, i, j);
      }
    }
  }

  lemma OccursTwice(b: seq<RankedGrasp>, i: nat, j: nat)
    requires i < j < |b| && b[i] == b[j]
    ensures multiset(b)[b[i]] >= 2
  {
    assert b == b[..j] + b[j..];
    assert b[..j][i] == b[i] && b[j..][0] == b[i];
    assert b[i] in b[..j] && b[i] in b[j..];
  }

  /** Candidate index and grasp id together identify a returned grasp. */
  lemma ResultKeysDistinct(goal: Goal, envs: seq<Env>, grasps: seq<RankedGrasp>)
    requires IsResult(goal, envs, grasps) && |goal.candidates| <= UINT32
    ensures DistinctKeys(grasps)
  {
    var k, lists := MaxGrasps(goal.maxNumGrasps), Lists(goal, envs, |envs|);
    var early :| RanksAll(goal, envs, early) && grasps == Take(k, early);
    forall c | 0 <= c < |lists|
      ensures DistinctKeys(lists[c]) && forall g: RankedGrasp :: g in lists[c] ==> g.candidateIndex == c
    {
      assert Graspable(goal, c, envs[c]);
      ListGrasps(goal, envs, c);
    }
    hide Graspable, Lists, Concat, Ranked, DistinctKeys;
    ConcatDistinct(lists);
    PermutedDistinct(Concat(lists), early);
  }
}
