/**
 Runs of the scene synchronizer with any number of threads, one locked region at a time.

 A thread inside a fetch is a worker with the items it still has to record; a thread that
 committed messages under the lock publishes them later, one by one, from its outbox.
 */
module SceneRuns {
  import opened Wrappers
  import opened Geometry
  import opened Names
  import opened SceneStore
  import opened SceneFetch

  /** Where a worker is with its first item: before the check, holding downloaded bytes, or about to record. */
  datatype Phase = Check | Emplace(bytes: Bytes) | Track

  datatype Worker = Worker(todo: seq<Item>, phase: Phase)

  datatype Sys = Sys(
    store: Store,
    workers: map<nat, Worker>,
    committed: seq<Message>,           // in the order the lock was taken
    outbox: map<nat, seq<Message>>,    // committed but not yet published, per thread
    published: seq<Message>)           // in the order the topic saw them

  datatype Event =
    | StartFetch(tid: nat, reply: seq<WorldObject>)
    | FetchStep(tid: nat, gltf: Option<Bytes>)
    | AddPass(tid: nat, names: Option<seq<string>>, order: seq<string>, now: real)
    | RemoveCall(tid: nat, frame: string, now: real)
    | UpdateCall(tid: nat, transforms: seq<Transform>, order: seq<string>, now: real)
    | Publish(tid: nat)

  const INIT := Sys(EMPTY_STORE, map[], [], map[], [])

  function Outbox(sys: Sys, tid: nat): seq<Message> {
    if tid in sys.outbox then sys.outbox[tid] else []
  }

  function FramesToAdd(names: Option<seq<string>>, order: seq<string>): seq<string> {
    if names.None? then order else names.value
  }

  ghost predicate Enabled(sys: Sys, ev: Event) {
    match ev
    case StartFetch(tid, _) => tid !in sys.workers || sys.workers[tid].todo == []
    case FetchStep(tid, _) => tid in sys.workers && sys.workers[tid].todo != []
    case AddPass(_, names, order, _) => names.None? ==> Enumerates(order, sys.store.tracked.Keys)
    case RemoveCall(_, _, _) => true
    case UpdateCall(_, _, order, _) => Enumerates(order, sys.store.tracked.Keys)
    case Publish(tid) => Outbox(sys, tid) != []
  }

  /** One locked region of a fetch. The download itself happens between two of them. */
  function WorkerStep(s: Store, w: Worker, gltf: Option<Bytes>): (Store, Worker)
    requires w.todo != []
  {
    match w.todo[0]
    case PrimitiveItem(frame, id, pose, solid) => (RecordPrimitive(s, frame, id, pose, solid), Worker(w.todo[1..], Check))
    case MeshItem(frame, id, pose, _) =>
      match w.phase
      case Check =>
        if id in s.renderables then (s, w.(phase := Track))
        else if gltf.None? then (s, Worker(w.todo[1..], Check))
        else (s, w.(phase := Emplace(gltf.value)))
      case Emplace(bytes) => (CacheMesh(s, id, bytes), w.(phase := Track))
      case Track => (RecordMesh(s, frame, id, pose), Worker(w.todo[1..], Check))
  }

  function Commit(sys: Sys, tid: nat, store: Store, messages: seq<Message>): Sys {
    sys.(store := store, committed := sys.committed + messages, outbox := sys.outbox[tid := Outbox(sys, tid) + messages])
  }

  /** An event that is not enabled leaves the system as it is. */
  ghost function Next(cfg: SyncConfig, sys: Sys, ev: Event): Sys {
    if !Enabled(sys, ev) then sys
    else
      match ev
      case StartFetch(tid, reply) => sys.(workers := sys.workers[tid := Worker(ItemsOf(cfg, reply), Check)])
      case FetchStep(tid, gltf) =>
        var (store, worker) := WorkerStep(sys.store, sys.workers[tid], gltf);
        sys.(store := store, workers := sys.workers[tid := worker])
      case AddPass(tid, names, order, now) =>
        Commit(sys, tid, sys.store, AddMessages(cfg, sys.store, FramesToAdd(names, order), now))
      case RemoveCall(tid, frame, now) => Commit(sys, tid, RemoveFrame(sys.store, frame), [Remove(frame, now)])
      case UpdateCall(tid, transforms, order, now) =>
        Commit(sys, tid, AfterUpdate(cfg, sys.store, transforms, now), MoveMessages(cfg, sys.store, order, transforms, now))
      case Publish(tid) =>
        var box := Outbox(sys, tid);
        sys.(outbox := sys.outbox[tid := box[1..]], published := sys.published + [box[0]])
  }

  ghost function Exec(cfg: SyncConfig, sys: Sys, evs: seq<Event>): Sys {
    if evs == [] then sys else Next(cfg, Exec(cfg, sys, evs[..|evs| - 1]), evs[|evs| - 1])
  }

  lemma ExecSnoc(cfg: SyncConfig, sys: Sys, evs: seq<Event>, ev: Event)
    ensures Exec(cfg, sys, evs + [ev]) == Next(cfg, Exec(cfg, sys, evs), ev)
  {
  }

  // ---- the glTF cache is write-once ----

  ghost predicate CacheKept(s: Store, t: Store) {
    s.renderables.Keys <= t.renderables.Keys && forall id :: id in s.renderables ==> t.renderables[id] == s.renderables[id]
  }

  lemma StepKeepsCache(cfg: SyncConfig, sys: Sys, ev: Event)
    ensures CacheKept(sys.store, Next(cfg, sys, ev).store)
  {
    hide ItemsOf, AddMessages, MoveMessages, MovedPoses, MovedTimes, Enumerates;
  }

  /** Under any interleaving, bytes once cached for a mesh id never change. */
  lemma {:induction false} CacheWriteOnce(cfg: SyncConfig, sys: Sys, evs: seq<Event>)
    ensures CacheKept(sys.store, Exec(cfg, sys, evs).store)
  {
    if evs != [] {
      CacheWriteOnce(cfg, sys, evs[..|evs| - 1]);
      StepKeepsCache(cfg, Exec(cfg, sys, evs[..|evs| - 1]), evs[|evs| - 1]);
    }
  }

  // ---- the linked maps ----

  /** A mesh id that a message can show: it has a relative pose and a shape. */
  predicate Backed(s: Store, id: string) {
    id in s.relativePose && (id in s.renderables || id in s.primitives)
  }

  ghost predicate TrackedOk(s: Store) {
    forall f :: f in s.tracked ==> s.tracked[f] != {} && forall id :: id in s.tracked[f] ==> Backed(s, id)
  }

  /** A worker about to record a mesh has seen its bytes in the cache. */
  predicate WorkerOk(s: Store, w: Worker) {
    w.todo != [] && w.todo[0].MeshItem? && w.phase.Track? ==> w.todo[0].id in s.renderables
  }

  ghost predicate WorkersOk(sys: Sys) {
    forall t :: t in sys.workers ==> WorkerOk(sys.store, sys.workers[t])
  }

  ghost predicate MapsOk(sys: Sys) {
    TrackedOk(sys.store) && WorkersOk(sys)
  }

  lemma RecordKeepsTracked(s: Store, t: Store, frame: string, id: string, pose: Pose)
    requires TrackedOk(s) && s.tracked == t.tracked && s.relativePose == t.relativePose
    requires s.renderables.Keys <= t.renderables.Keys && s.primitives.Keys <= t.primitives.Keys
    requires id in t.renderables || id in t.primitives
    ensures TrackedOk(RecordMesh(t, frame, id, pose))
  {
    var u := RecordMesh(t, frame, id, pose);
    forall f | f in u.tracked
      ensures u.tracked[f] != {} && forall i :: i in u.tracked[f] ==> Backed(u, i)
    {
      if f == frame {
        assert id in u.tracked[f];
      }
      forall i | i in u.tracked[f]
        ensures Backed(u, i)
      {
        if i != id {
          assert i in IdsOf(s, f) && Backed(s, i);
        }
      }
    }
  }

  lemma CacheKeepsTracked(s: Store, id: string, bytes: Bytes)
    requires TrackedOk(s)
    ensures TrackedOk(CacheMesh(s, id, bytes))
  {
    var t := CacheMesh(s, id, bytes);
    forall f, i | f in t.tracked && i in t.tracked[f]
      ensures Backed(t, i)
    {
      assert Backed(s, i);
    }
  }

  lemma WorkerStepKeepsTracked(s: Store, w: Worker, gltf: Option<Bytes>)
    requires w.todo != [] && TrackedOk(s) && WorkerOk(s, w)
    ensures TrackedOk(WorkerStep(s, w, gltf).0) && WorkerOk(WorkerStep(s, w, gltf).0, WorkerStep(s, w, gltf).1)
  {
    hide TrackedOk;
    match w.todo[0]
    case PrimitiveItem(frame, id, pose, solid) =>
      RecordKeepsTracked(s, s.(primitives := s.primitives[id := solid]), frame, id, pose);
    case MeshItem(frame, id, pose, _) =>
      match w.phase
      case Check =>
      case Emplace(bytes) => CacheKeepsTracked(s, id, bytes);
      case Track => RecordKeepsTracked(s, s, frame, id, pose);
  }

  lemma RemoveKeepsTracked(s: Store, frame: string)
    requires TrackedOk(s)
    ensures TrackedOk(RemoveFrame(s, frame))
  {
    var t := RemoveFrame(s, frame);
    forall f, i | f in t.tracked && i in t.tracked[f]
      ensures Backed(t, i)
    {
      assert Backed(s, i);
    }
  }

  lemma UpdateKeepsTracked(cfg: SyncConfig, s: Store, transforms: seq<Transform>, now: real)
    requires TrackedOk(s)
    ensures TrackedOk(AfterUpdate(cfg, s, transforms, now))
  {
    hide Moves, Decide;
    var t := AfterUpdate(cfg, s, transforms, now);
    forall f, i | f in t.tracked && i in t.tracked[f]
      ensures Backed(t, i)
    {
      assert Backed(s, i);
    }
  }

  lemma StepKeepsMaps(cfg: SyncConfig, sys: Sys, ev: Event)
    requires MapsOk(sys)
    ensures MapsOk(Next(cfg, sys, ev))
  {
    var next := Next(cfg, sys, ev);
    StepKeepsCache(cfg, sys, ev);
    assert TrackedOk(next.store) by {
      hide TrackedOk, AfterUpdate, AddMessages, MoveMessages, RemoveFrame, WorkerStep, ItemsOf, Enumerates;
      if Enabled(sys, ev) {
        match ev
        case FetchStep(tid, gltf) => WorkerStepKeepsTracked(sys.store, sys.workers[tid], gltf);
        case RemoveCall(_, frame, _) => RemoveKeepsTracked(sys.store, frame);
        case UpdateCall(_, transforms, _, now) => UpdateKeepsTracked(cfg, sys.store, transforms, now);
        case _ =>
      }
    }
    hide AfterUpdate, AddMessages, MoveMessages, RemoveFrame, ItemsOf, Enumerates, TrackedOk;
    forall t | t in next.workers
      ensures WorkerOk(next.store, next.workers[t])
    {
      if ev.FetchStep? && ev.tid == t && Enabled(sys, ev) {
        WorkerStepKeepsTracked(sys.store, sys.workers[t], ev.gltf);
      }
    }
  }

  /**
   In every reachable state no tracked frame is empty and every mesh id under a tracked frame
   has a relative pose and a shape, so no lookup of an ADD or a MOVE ever misses.
   */
  lemma {:induction false} MapsLinked(cfg: SyncConfig, evs: seq<Event>)
    ensures MapsOk(Exec(cfg, INIT, evs))
  {
    if evs != [] {
      var before := evs[..|evs| - 1];
      MapsLinked(cfg, before);
      StepKeepsMaps(cfg, Exec(cfg, INIT, before), evs[|evs| - 1]);
    }
  }

  /** The mesh and primitive entries of a frame partition its ids: no id is skipped. */
  lemma NothingSkipped(s: Store, frame: string)
    requires TrackedOk(s) && frame in s.tracked
    ensures var ids := s.tracked[frame];
            MeshPart(s, ids).Keys + PrimitivePart(s, ids).Keys == ids && MeshPart(s, ids).Keys !! PrimitivePart(s, ids).Keys
  {
  }

  /**
   ADD and MOVE messages of a frame taken from the same maps carry the same pose for the same
   shape. They carry equally many primitive poses always, and equally many mesh poses exactly
   when every mesh of the frame decodes.
   */
  lemma AddAndMoveAgree(cfg: SyncConfig, s: Store, frame: string, t: Transform, now: real)
    requires frame in s.tracked
    ensures var add, move := AddMessage(cfg, s, frame, now), MoveMessage(s, frame, t, now);
            && move.primitivePoses == PosesOnly(add.primitives)
            && (forall id :: id in add.meshes ==> id in move.meshPoses && add.meshes[id].1 == move.meshPoses[id])
    ensures |AddMessage(cfg, s, frame, now).meshes| == |MoveMessage(s, frame, t, now).meshPoses| <==>
            forall id :: id in MeshPart(s, s.tracked[frame]) ==> cfg.decodes(s.renderables[id])
  {
    DecodedSize(cfg, MeshPart(s, s.tracked[frame]));
    hide PrimitivePart;
  }

  lemma DecodedSize(cfg: SyncConfig, meshes: map<string, (Bytes, Pose)>)
    ensures |Decoded(cfg, meshes)| == |PosesOnly(meshes)| <==> forall id :: id in meshes ==> cfg.decodes(meshes[id].0)
  {
    var d, p := Decoded(cfg, meshes), PosesOnly(meshes);
    assert |d| == |d.Keys| && |p| == |p.Keys| && p.Keys == meshes.Keys;
    SubsetSize(d.Keys, p.Keys);
    if forall id :: id in meshes ==> cfg.decodes(meshes[id].0) {
      assert d.Keys == meshes.Keys;
    } else {
      var id :| id in meshes && !cfg.decodes(meshes[id].0);
      assert id in p.Keys && id !in d.Keys;
    }
  }

  lemma SubsetSize(a: set<string>, b: set<string>)
    requires a <= b
    ensures |a| == |b| <==> a == b
  {
    assert |b - a| == |b| - |a|;
    if |b - a| == 0 {
      assert b - a == {};
    }
  }

  // ---- names ----

  ghost predicate NamesOk(cfg: SyncConfig, sys: Sys) {
    && (forall f :: f in sys.store.tracked ==> WellNamed(cfg.tfPrefix, cfg.excluded, f))
    && (forall t :: t in sys.workers ==> AllItems(sys.workers[t].todo, IsNamed(cfg)))
  }

  ghost predicate StoreOwned(s: Store) {
    forall f, id :: f in s.tracked && id in s.tracked[f] ==> FrameOfId(id) == f
  }

  ghost predicate OwnersOk(sys: Sys) {
    && StoreOwned(sys.store)
    && (forall t :: t in sys.workers ==> AllItems(sys.workers[t].todo, IsOwned()))
  }

  lemma StepKeepsNames(cfg: SyncConfig, sys: Sys, ev: Event)
    requires NamesOk(cfg, sys)
    ensures NamesOk(cfg, Next(cfg, sys, ev))
  {
    hide AddMessages, MoveMessages, Enumerates, WellNamed, ItemsOf, MovedPoses, MovedTimes;
    if ev.StartFetch? {
      ItemsNamed(cfg, ev.reply);
    }
  }

  lemma WorkerKeepsOwners(s: Store, w: Worker, gltf: Option<Bytes>)
    requires w.todo != [] && StoreOwned(s) && AllItems(w.todo, IsOwned())
    ensures StoreOwned(WorkerStep(s, w, gltf).0) && AllItems(WorkerStep(s, w, gltf).1.todo, IsOwned())
  {
    hide FrameOfId;
    assert IsOwned()(w.todo[0]);
  }

  lemma StepKeepsOwners(cfg: SyncConfig, sys: Sys, ev: Event)
    requires OwnersOk(sys) && (ev.StartFetch? ==> SlashFreeReply(ev.reply))
    ensures OwnersOk(Next(cfg, sys, ev))
  {
    hide AddMessages, MoveMessages, Enumerates, FrameOfId, ItemsOf, MovedPoses, MovedTimes, SlashFreeReply, WorkerStep, AllItems;
    if Enabled(sys, ev) {
      match ev
      case StartFetch(_, reply) => ItemsNamed(cfg, reply);
      case FetchStep(tid, gltf) =>
        WorkerKeepsOwners(sys.store, sys.workers[tid], gltf);
        hide StoreOwned;
      case _ =>
    }
  }

  lemma {:induction false} NamesReachable(cfg: SyncConfig, evs: seq<Event>)
    ensures NamesOk(cfg, Exec(cfg, INIT, evs))
  {
    if evs != [] {
      var before := evs[..|evs| - 1];
      NamesReachable(cfg, before);
      hide NamesOk, Next;
      StepKeepsNames(cfg, Exec(cfg, INIT, before), evs[|evs| - 1]);
    }
  }

  /** In every reachable state no tracked frame lies in an excluded namespace. */
  lemma NeverExcluded(cfg: SyncConfig, evs: seq<Event>)
    ensures forall f :: f in Exec(cfg, INIT, evs).store.tracked ==> WellNamed(cfg.tfPrefix, cfg.excluded, f)
    ensures forall f :: f in Exec(cfg, INIT, evs).store.tracked ==>
              cfg.tfPrefix <= f && Namespace(cfg.tfPrefix, f) !in cfg.excluded && '/' in f
  {
    NamesReachable(cfg, evs);
    hide Exec, Namespace;
    forall f | f in Exec(cfg, INIT, evs).store.tracked
      ensures cfg.tfPrefix <= f && Namespace(cfg.tfPrefix, f) !in cfg.excluded && '/' in f
    {
      assert WellNamed(cfg.tfPrefix, cfg.excluded, f);
      assert f == cfg.tfPrefix + f[|cfg.tfPrefix|..];
    }
  }

  ghost predicate SlashFreeReplies(evs: seq<Event>) {
    forall i :: 0 <= i < |evs| && evs[i].StartFetch? ==> SlashFreeReply(evs[i].reply)
  }

  lemma {:induction false} IdsDetermineFrames(cfg: SyncConfig, evs: seq<Event>)
    requires SlashFreeReplies(evs)
    ensures OwnersOk(Exec(cfg, INIT, evs))
  {
    if evs != [] {
      var before := evs[..|evs| - 1];
      IdsDetermineFrames(cfg, before);
      StepKeepsOwners(cfg, Exec(cfg, INIT, before), evs[|evs| - 1]);
    }
  }

  /** When inner geometry names carry no slash, different frames never share a mesh id. */
  lemma FramesShareNoIds(cfg: SyncConfig, evs: seq<Event>, f: string, g: string)
    requires SlashFreeReplies(evs) && f != g
    ensures IdsOf(Exec(cfg, INIT, evs).store, f) !! IdsOf(Exec(cfg, INIT, evs).store, g)
  {
    hide Exec, FrameOfId;
    IdsDetermineFrames(cfg, evs);
    var s := Exec(cfg, INIT, evs).store;
    assert forall id :: id in IdsOf(s, f) ==> FrameOfId(id) == f;
    assert forall id :: id in IdsOf(s, g) ==> FrameOfId(id) == g;
  }

  // ---- a fetch that nothing interleaves with ----

  lemma {:induction false} ExecConcat(cfg: SyncConfig, sys: Sys, a: seq<Event>, b: seq<Event>)
    ensures Exec(cfg, sys, a + b) == Exec(cfg, Exec(cfg, sys, a), b)
  {
    hide Next;
    if b == [] {
      assert a + b == a;
    } else {
      var k := |b| - 1;
      ExecConcat(cfg, sys, a, b[..k]);
      ExecSnoc(cfg, sys, a + b[..k], b[k]);
      assert a + b == (a + b[..k]) + [b[k]];
    }
  }

  /** The lock sections of one item, run back to back, are the whole effect of the item. */
  lemma ItemAlone(cfg: SyncConfig, sys: Sys, tid: nat, download: Download) returns (evs: seq<Event>)
    requires tid in sys.workers && sys.workers[tid].todo != [] && sys.workers[tid].phase.Check?
    ensures var todo := sys.workers[tid].todo;
            Exec(cfg, sys, evs) == sys.(store := ApplyItem(sys.store, todo[0], download),
                                        workers := sys.workers[tid := Worker(todo[1..], Check)])
  {
    var w := sys.workers[tid];
    var item := w.todo[0];
    if item.PrimitiveItem? {
      evs := [FetchStep(tid, None)];
      OneStep(cfg, sys, tid, None);
    } else if item.id in sys.store.renderables {
      evs := [FetchStep(tid, None), FetchStep(tid, None)];
      OneStep(cfg, sys, tid, None);
      var mid := Exec(cfg, sys, [FetchStep(tid, None)]);
      OneStep(cfg, mid, tid, None);
      ExecConcat(cfg, sys, [FetchStep(tid, None)], [FetchStep(tid, None)]);
      assert [FetchStep(tid, None)] + [FetchStep(tid, None)] == evs;
      assert sys.workers[tid := w.(phase := Track)][tid := Worker(w.todo[1..], Check)] == sys.workers[tid := Worker(w.todo[1..], Check)];
    } else if download(item.ref).None? {
      evs := [FetchStep(tid, None)];
      OneStep(cfg, sys, tid, None);
    } else {
      var got := FetchStep(tid, download(item.ref));
      var next := FetchStep(tid, None);
      evs := [got, next, next];
      OneStep(cfg, sys, tid, download(item.ref));
      var mid := Exec(cfg, sys, [got]);
      OneStep(cfg, mid, tid, None);
      var late := Exec(cfg, mid, [next]);
      OneStep(cfg, late, tid, None);
      ExecConcat(cfg, sys, [got], [next]);
      ExecConcat(cfg, sys, [got] + [next], [next]);
      assert [got] + [next] + [next] == evs;
      assert sys.workers[tid := mid.workers[tid]][tid := late.workers[tid]][tid := Worker(w.todo[1..], Check)]
          == sys.workers[tid := Worker(w.todo[1..], Check)];
    }
  }

  lemma OneStep(cfg: SyncConfig, sys: Sys, tid: nat, gltf: Option<Bytes>)
    requires tid in sys.workers && sys.workers[tid].todo != []
    ensures var (store, worker) := WorkerStep(sys.store, sys.workers[tid], gltf);
            Exec(cfg, sys, [FetchStep(tid, gltf)]) == sys.(store := store, workers := sys.workers[tid := worker])
  {
  }

  /**
   Run without interleaving, the lock sections of a fetch have the effect of recording its items
   one after the other: the sequential pass refines to the interleaved one.
   */
  lemma {:induction false} FetchAlone(cfg: SyncConfig, sys: Sys, tid: nat, download: Download) returns (evs: seq<Event>)
    requires tid in sys.workers && sys.workers[tid].phase.Check?
    ensures Exec(cfg, sys, evs) == sys.(store := ApplyAll(sys.store, sys.workers[tid].todo, download),
                                        workers := sys.workers[tid := Worker([], Check)])
    decreases |sys.workers[tid].todo|
  {
    var todo := sys.workers[tid].todo;
    if todo == [] {
      evs := [];
      assert sys.workers[tid] == Worker([], Check);
      assert sys.workers[tid := Worker([], Check)] == sys.workers;
    } else {
      hide Exec, ApplyItem, ApplyAll;
      var first := ItemAlone(cfg, sys, tid, download);
      var mid := Exec(cfg, sys, first);
      var rest := FetchAlone(cfg, mid, tid, download);
      evs := first + rest;
      ExecConcat(cfg, sys, first, rest);
      assert todo == [todo[0]] + todo[1..];
      ApplyAllConcat(sys.store, [todo[0]], todo[1..], download);
      ApplyOne(sys.store, todo[0], download);
      assert mid.workers[tid := Worker([], Check)] == sys.workers[tid := Worker([], Check)];
    }
  }

  lemma ApplyOne(s: Store, item: Item, download: Download)
    ensures ApplyAll(s, [item], download) == ApplyItem(s, item, download)
  {
  }
}
