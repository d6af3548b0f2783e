/**
 A removal against the fetches under way: when a frame removed from the maps stays out of them and
 out of the planning scene.
 */
module SceneRemoval {
  import opened Wrappers
  import opened SceneStore
  import opened SceneFetch
  import opened SceneRuns
  import opened SceneAgreement
  import opened SceneShapes

  /** The worker still has an item of the frame before it. */
  predicate Holds(w: Worker, f: string) {
    exists k :: 0 <= k < |w.todo| && w.todo[k].frame == f
  }

  predicate NoneHolds(sys: Sys, f: string) {
    forall t :: t in sys.workers ==> !Holds(sys.workers[t], f)
  }

  /** The frame is out of the maps and of every fetch under way, and the planning scene does not show it. */
  predicate Gone(sys: Sys, f: string) {
    f !in sys.store.tracked && NoneHolds(sys, f) && LatestAdd(sys.committed, f).None?
  }

  predicate NoNewFetch(evs: seq<Event>) {
    forall k :: 0 <= k < |evs| ==> !evs[k].StartFetch?
  }

  // ---- no worker holds an item ----

  lemma WorkerKeepsAway(s: Store, w: Worker, gltf: Option<Bytes>, f: string)
    requires w.todo != [] && !Holds(w, f) && f !in s.tracked
    ensures f !in WorkerStep(s, w, gltf).0.tracked && !Holds(WorkerStep(s, w, gltf).1, f)
  {
    assert w.todo[0].frame != f;
    var rest := w.todo[1..];
    assert forall k :: 0 <= k < |rest| ==> rest[k] == w.todo[k + 1];
  }

  lemma StepKeepsGone(cfg: SyncConfig, sys: Sys, ev: Event, f: string)
    requires Gone(sys, f) && !ev.StartFetch?
    ensures Gone(Next(cfg, sys, ev), f)
  {
    hide AddMessages, MoveMessages, AddMessage, Enumerates, MovedPoses, MovedTimes, WorkerStep, Holds, LatestAdd;
    StepLatest(cfg, sys, ev, f);
    if ev.FetchStep? && Enabled(sys, ev) {
      WorkerKeepsAway(sys.store, sys.workers[ev.tid], ev.gltf, f);
    }
  }

  lemma {:induction false} StaysGone(cfg: SyncConfig, sys: Sys, evs: seq<Event>, f: string)
    requires Gone(sys, f) && NoNewFetch(evs)
    ensures Gone(Exec(cfg, sys, evs), f)
  {
    hide Gone, Next;
    if evs != [] {
      var k := |evs| - 1;
      StaysGone(cfg, sys, evs[..k], f);
      StepKeepsGone(cfg, Exec(cfg, sys, evs[..k]), evs[k], f);
    }
  }

  // ---- a worker holds one ----

  function Rank(p: Phase): nat {
    match p
    case Check => 2
    case Emplace(_) => 1
    case Track => 0
  }

  predicate RecordsNext(w: Worker, f: string) {
    w.todo != [] && w.todo[0].frame == f && (w.todo[0].PrimitiveItem? || w.phase.Track?)
  }

  /** A locked region with a successful download records the first item or brings it nearer to that. */
  lemma WorkerAdvances(s: Store, w: Worker, gltf: Bytes, f: string)
    requires Holds(w, f)
    ensures w.todo != []
    ensures var (store, next) := WorkerStep(s, w, Some(gltf));
            if RecordsNext(w, f) then f in store.tracked
            else Holds(next, f) && (|next.todo| < |w.todo| || (|next.todo| == |w.todo| && Rank(next.phase) < Rank(w.phase)))
  {
    var k :| 0 <= k < |w.todo| && w.todo[k].frame == f;
    if k > 0 {
      assert w.todo[1..][k - 1].frame == f;
    }
  }

  /** Left alone, with downloads that succeed, the worker tracks the frame again. */
  lemma {:induction false} CanRecord(cfg: SyncConfig, sys: Sys, tid: nat, f: string) returns (evs: seq<Event>)
    requires tid in sys.workers && Holds(sys.workers[tid], f)
    ensures NoNewFetch(evs) && f in Exec(cfg, sys, evs).store.tracked
    decreases |sys.workers[tid].todo|, Rank(sys.workers[tid].phase)
  {
    var w := sys.workers[tid];
    var first := FetchStep(tid, Some([]));
    WorkerAdvances(sys.store, w, [], f);
    OneStep(cfg, sys, tid, Some([]));
    hide WorkerStep, Exec, Holds;
    evs := [first];
    if !RecordsNext(w, f) {
      var rest := CanRecord(cfg, Exec(cfg, sys, [first]), tid, f);
      ExecConcat(cfg, sys, [first], rest);
      evs := [first] + rest;
    }
  }

  /** And a pass over its name then shows it again. */
  lemma CanShow(cfg: SyncConfig, sys: Sys, tid: nat, f: string, now: real) returns (evs: seq<Event>)
    requires tid in sys.workers && Holds(sys.workers[tid], f)
    ensures NoNewFetch(evs) && LatestAdd(Exec(cfg, sys, evs).committed, f).Some?
  {
    var before := CanRecord(cfg, sys, tid, f);
    var pass := AddPass(tid, Some([f]), [], now);
    evs := before + [pass];
    ExecSnoc(cfg, sys, before, pass);
    hide Exec, Next, LatestAdd;
    StepLatest(cfg, Exec(cfg, sys, before), pass, f);
  }

  // ---- a frame that is back ----

  predicate Back(sys: Sys, f: string) {
    f in sys.store.tracked && LatestAdd(sys.committed, f).Some?
  }

  lemma StepKeepsBack(cfg: SyncConfig, sys: Sys, ev: Event, f: string)
    requires Back(sys, f) && !Drops(ev, f)
    ensures Back(Next(cfg, sys, ev), f)
  {
    hide AddMessages, MoveMessages, AddMessage, ItemsOf, Enumerates, MovedPoses, MovedTimes, LatestAdd, WorkerStep;
    StepLatest(cfg, sys, ev, f);
    if ev.FetchStep? && Enabled(sys, ev) {
      WorkerStepKeepsPoses(sys.store, sys.workers[ev.tid], ev.gltf);
    }
  }

  /** Only a removal of the frame itself takes it away again; more fetches and passes never do. */
  lemma {:induction false} BackUntilRemoved(cfg: SyncConfig, sys: Sys, evs: seq<Event>, f: string)
    requires Back(sys, f) && forall k :: 0 <= k < |evs| ==> !Drops(evs[k], f)
    ensures Back(Exec(cfg, sys, evs), f)
  {
    hide Back, Next, Drops;
    if evs != [] {
      var k := |evs| - 1;
      BackUntilRemoved(cfg, sys, evs[..k], f);
      StepKeepsBack(cfg, Exec(cfg, sys, evs[..k]), evs[k], f);
    }
  }

  // ---- the removal ----

  /** Until another fetch starts, the frame is never tracked. */
  ghost predicate StaysUntracked(cfg: SyncConfig, sys: Sys, f: string) {
    forall evs :: NoNewFetch(evs) ==> f !in Exec(cfg, sys, evs).store.tracked
  }

  /** Until another fetch starts, the planning scene never shows the frame. */
  ghost predicate StaysHidden(cfg: SyncConfig, sys: Sys, f: string) {
    forall evs :: NoNewFetch(evs) ==> LatestAdd(Exec(cfg, sys, evs).committed, f).None?
  }

  lemma RemoveStep(cfg: SyncConfig, sys: Sys, tid: nat, f: string, now: real)
    ensures var after := Next(cfg, sys, RemoveCall(tid, f, now));
            f !in after.store.tracked && after.workers == sys.workers && LatestAdd(after.committed, f).None?
  {
    hide LatestAdd;
    LatestSnoc(sys.committed, Remove(f, now), f);
  }

  /**
   A removal holds exactly when no fetch under way still has an item of the frame: then the frame
   stays out of the maps and of the planning scene until another fetch starts, and otherwise a
   continuation without one tracks it, and one shows it, again.
   */
  lemma RemovalHoldsIff(cfg: SyncConfig, sys: Sys, tid: nat, f: string, now: real)
    ensures var after := Next(cfg, sys, RemoveCall(tid, f, now));
            && (StaysUntracked(cfg, after, f) <==> NoneHolds(sys, f))
            && (StaysHidden(cfg, after, f) <==> NoneHolds(sys, f))
  {
    var after := Next(cfg, sys, RemoveCall(tid, f, now));
    RemoveStep(cfg, sys, tid, f, now);
    hide Exec, Next, Holds, LatestAdd, NoNewFetch;
    if NoneHolds(sys, f) {
      forall evs | NoNewFetch(evs)
        ensures Gone(Exec(cfg, after, evs), f)
      {
        StaysGone(cfg, after, evs, f);
      }
    } else {
      var t :| t in sys.workers && Holds(sys.workers[t], f);
      var tracks := CanRecord(cfg, after, t, f);
      var shows := CanShow(cfg, after, t, f, now);
    }
  }
}
