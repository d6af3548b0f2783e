/**
 The scene synchronizer itself: its fields, its locked regions and its calls. Each method is
 proved against the value-level effect in SceneStore, SceneFetch and SyncMailbox; each whole call
 keeps `Valid`, the link between the maps and the published messages.
 */
module SceneSynchronizer {
  import opened Wrappers
  import opened Geometry
  import opened Names
  import opened SceneStore
  import opened SceneFetch
  import opened SceneLog
  import opened SceneRuns
  import opened SceneAgreement
  import opened SceneTransforms
  import opened SceneContents
  import SyncMailbox

  // ---- what removals and requests ask for ----

  function RemoveAll(s: Store, frames: seq<string>): Store {
    if frames == [] then s else RemoveFrame(RemoveAll(s, frames[..|frames| - 1]), frames[|frames| - 1])
  }

  /** Each removal has its own reading of the clock. */
  function RemoveMessages(frames: seq<string>, clock: nat -> real): seq<Message> {
    if frames == [] then []
    else
      var k := |frames| - 1;
      RemoveMessages(frames[..k], clock) + [Remove(frames[k], clock(k))]
  }

  /** Names a caller asks the World for; an empty list asks for everything. */
  function Requested(names: Option<seq<string>>): Option<seq<string>> {
    if names == Some([]) then None else names
  }

  /** A message was sent for the frame exactly when its entries in the maps let its first transform pass. */
  ghost predicate SentWhenDue(cfg: SyncConfig, s: Store, f: string, transforms: seq<Transform>, now: real, messages: seq<Message>) {
    forall i: nat :: FirstFor(transforms, f, i) ==>
      (messages != [] <==>
         && (f in s.lastTime ==> PeriodPassed(cfg, s.lastTime[f], now))
         && (f in s.lastPose ==> !BarelyMoved(cfg, s.lastPose[f], transforms[i])))
  }

  type World = Option<seq<string>> -> Option<seq<WorldObject>>

  class SceneSynchronizer {
    const cfg: SyncConfig

    var renderables: map<string, Bytes>
    var primitives: map<string, Solid>
    var tracked: map<string, set<string>>
    var relativePose: map<string, Pose>
    var lastPose: map<string, Pose>
    var lastTime: map<string, real>
    var tfFrames: set<string>
    var pending: Option<seq<string>>
    var wake: bool
    var shutdown: bool
    ghost var published: seq<Message>
    ghost var downloads: nat

    ghost function Maps(): Store
      reads this
    {
      Store(renderables, primitives, tracked, relativePose, lastPose, lastTime)
    }

    ghost function Mailbox(): SyncMailbox.Box
      reads this
    {
      SyncMailbox.Box(pending, wake, shutdown)
    }

    /** The maps are linked, and they and the scene of the published messages agree. */
    ghost predicate Valid()
      reads this
    {
      TrackedOk(Maps()) && LogOk(cfg, Maps(), published)
    }

    constructor (cfg: SyncConfig)
      ensures this.cfg == cfg && Valid()
      ensures Maps() == EMPTY_STORE && Mailbox() == SyncMailbox.FRESH && tfFrames == {}
      ensures published == [] && downloads == 0
    {
      this.cfg := cfg;
      renderables, primitives, tracked, relativePose, lastPose, lastTime := map[], map[], map[], map[], map[], map[];
      tfFrames, pending, wake, shutdown := {}, None, true, false;
      published, downloads := [], 0;
      new;
      EmptyLogOk(cfg);
    }

    method TrackedCount() returns (n: nat)
      ensures n == |tracked|
    {
      n := |tracked|;
    }

    // ---- fetch ----

    method IsExcluded(shortName: string) returns (excluded: bool)
      ensures excluded <==> shortName in cfg.excluded
    {
      for i := 0 to |cfg.excluded|
        invariant shortName !in cfg.excluded[..i]
      {
        if shortName == cfg.excluded[i] {
          return true;
        }
      }
      assert cfg.excluded[..|cfg.excluded|] == cfg.excluded;
      return false;
    }

    method CacheDownloaded(id: string, bytes: Bytes)
      modifies this`renderables
      ensures Maps() == CacheMesh(old(Maps()), id, bytes)
    {
      if id !in renderables {
        renderables := renderables[id := bytes];
      }
    }

    method TrackMesh(frame: string, id: string, pose: Pose)
      modifies this`relativePose, this`tracked
      ensures Maps() == RecordMesh(old(Maps()), frame, id, pose)
    {
      relativePose := relativePose[id := pose];
      if frame !in tracked {
        tracked := tracked[frame := {}];
      }
      tracked := tracked[frame := tracked[frame] + {id}];
    }

    method TrackPrimitive(frame: string, id: string, pose: Pose, solid: Solid)
      modifies this`primitives, this`relativePose, this`tracked
      ensures Maps() == RecordPrimitive(old(Maps()), frame, id, pose, solid)
    {
      primitives := primitives[id := solid];
      TrackMesh(frame, id, pose);
    }

    /** One referenced mesh: check the cache, download outside the lock, cache, record. */
    method FetchMesh(frame: string, id: string, pose: Pose, ref: string, download: Download)
      modifies this`renderables, this`relativePose, this`tracked, this`downloads
      ensures Maps() == ApplyItem(old(Maps()), MeshItem(frame, id, pose, ref), download)
      ensures downloads == old(downloads) + DownloadsItem(old(Maps()), MeshItem(frame, id, pose, ref))
    {
      var shouldFetch := id !in renderables;
      if shouldFetch {
        var gltf := download(ref);
        downloads := downloads + 1;
        if gltf.None? {
          return;
        }
        CacheDownloaded(id, gltf.value);
      }
      TrackMesh(frame, id, pose);
    }

    /** The members of an inline primitive set; unsupported ones are skipped but keep their number. */
    method FetchPrimitives(frame: string, id: string, pose: Pose, shapes: seq<Shape>, ghost download: Download)
      modifies this`primitives, this`relativePose, this`tracked
      ensures Maps() == ApplyAll(old(Maps()), PrimitiveItems(frame, id, pose, shapes, |shapes|), download)
      ensures Downloads(old(Maps()), PrimitiveItems(frame, id, pose, shapes, |shapes|), download) == 0
    {
      ghost var before := Maps();
      NoItems(before, download);
      hide RecordPrimitive, PrimitiveId, ApplyAll, Downloads;
      for i := 0 to |shapes|
        invariant Maps() == ApplyAll(before, PrimitiveItems(frame, id, pose, shapes, i), download)
        invariant Downloads(before, PrimitiveItems(frame, id, pose, shapes, i), download) == 0
      {
        var solid := ToSolid(shapes[i]);
        ghost var done := PrimitiveItems(frame, id, pose, shapes, i);
        if solid.None? {
          assert done + [] == done;
          continue;
        }
        ApplyAllNext(before, done, PrimitiveItem(frame, PrimitiveId(id, i, |shapes|), pose, solid.value), download);
        TrackPrimitive(frame, PrimitiveId(id, i, |shapes|), pose, solid.value);
      }
    }

    method FetchInner(objectName: string, entityName: string, g: InnerGeometry, download: Download)
      modifies this`renderables, this`primitives, this`relativePose, this`tracked, this`downloads
      ensures Maps() == ApplyAll(old(Maps()), InnerItems(cfg, objectName, entityName, g), download)
      ensures downloads == old(downloads) + Downloads(old(Maps()), InnerItems(cfg, objectName, entityName, g), download)
    {
      var stripped := StripTfPrefixes(objectName, cfg.stripPrefixes);
      var short := AfterLastSlash(stripped);
      var excluded := IsExcluded(short);
      if excluded {
        return;
      }
      var frame := FrameName(cfg.tfPrefix, short, entityName);
      var id := MeshId(frame, g.name);
      var pose := PoseOrDefault(g.refTShape);
      match g.data {
        case MeshReference(ref) =>
          ghost var item := MeshItem(frame, id, pose, ref);
          assert [item][..0] == [];
          hide ApplyItem, DownloadsItem;
          FetchMesh(frame, id, pose, ref, download);
        case PrimitiveSet(shapes) =>
          FetchPrimitives(frame, id, pose, shapes, download);
        case NoCollisionData =>
      }
    }

    method FetchNamed(objectName: string, entityName: string, n: NamedGeometry, download: Download)
      modifies this`renderables, this`primitives, this`relativePose, this`tracked, this`downloads
      ensures Maps() == ApplyAll(old(Maps()), NamedItems(cfg, objectName, entityName, n), download)
      ensures downloads == old(downloads) + Downloads(old(Maps()), NamedItems(cfg, objectName, entityName, n), download)
    {
      if n.key != COLLISION_KEY {
        return;
      }
      hide InnerItems, ApplyAll, Downloads;
      ghost var f := g => InnerItems(cfg, objectName, entityName, g);
      ghost var before, count := Maps(), downloads;
      NoItems(before, download);
      for i := 0 to |n.inner|
        invariant Maps() == ApplyAll(before, Collect(n.inner[..i], f), download)
        invariant downloads == count + Downloads(before, Collect(n.inner[..i], f), download)
      {
        CollectNext(n.inner, i, f);
        ApplyAllConcat(before, Collect(n.inner[..i], f), f(n.inner[i]), download);
        FetchInner(objectName, entityName, n.inner[i], download);
      }
      assert n.inner[..|n.inner|] == n.inner;
    }

    method FetchEntity(objectName: string, e: Entity, download: Download)
      modifies this`renderables, this`primitives, this`relativePose, this`tracked, this`downloads
      ensures Maps() == ApplyAll(old(Maps()), EntityItems(cfg, objectName, e), download)
      ensures downloads == old(downloads) + Downloads(old(Maps()), EntityItems(cfg, objectName, e), download)
    {
      if e.geometries.None? {
        return;
      }
      var ns := e.geometries.value;
      hide NamedItems, ApplyAll, Downloads;
      ghost var f := n => NamedItems(cfg, objectName, e.name, n);
      ghost var before, count := Maps(), downloads;
      NoItems(before, download);
      for i := 0 to |ns|
        invariant Maps() == ApplyAll(before, Collect(ns[..i], f), download)
        invariant downloads == count + Downloads(before, Collect(ns[..i], f), download)
      {
        CollectNext(ns, i, f);
        ApplyAllConcat(before, Collect(ns[..i], f), f(ns[i]), download);
        FetchNamed(objectName, e.name, ns[i], download);
      }
      assert ns[..|ns|] == ns;
    }

    method FetchObject(o: WorldObject, download: Download)
      modifies this`renderables, this`primitives, this`relativePose, this`tracked, this`downloads
      ensures Maps() == ApplyAll(old(Maps()), ObjectItems(cfg, o), download)
      ensures downloads == old(downloads) + Downloads(old(Maps()), ObjectItems(cfg, o), download)
    {
      if o.name == "" {
        return;
      }
      hide EntityItems, ApplyAll, Downloads;
      ghost var f := e => EntityItems(cfg, o.name, e);
      ghost var before, count := Maps(), downloads;
      NoItems(before, download);
      for i := 0 to |o.entities|
        invariant Maps() == ApplyAll(before, Collect(o.entities[..i], f), download)
        invariant downloads == count + Downloads(before, Collect(o.entities[..i], f), download)
      {
        CollectNext(o.entities, i, f);
        ApplyAllConcat(before, Collect(o.entities[..i], f), f(o.entities[i]), download);
        FetchEntity(o.name, o.entities[i], download);
      }
      assert o.entities[..|o.entities|] == o.entities;
    }

    method FetchReply(objects: seq<WorldObject>, download: Download)
      modifies this`renderables, this`primitives, this`relativePose, this`tracked, this`downloads
      ensures Maps() == ApplyAll(old(Maps()), ItemsOf(cfg, objects), download)
      ensures downloads == old(downloads) + Downloads(old(Maps()), ItemsOf(cfg, objects), download)
    {
      hide ObjectItems, ApplyAll, Downloads;
      ghost var f := o => ObjectItems(cfg, o);
      ghost var before, count := Maps(), downloads;
      NoItems(before, download);
      for i := 0 to |objects|
        invariant Maps() == ApplyAll(before, Collect(objects[..i], f), download)
        invariant downloads == count + Downloads(before, Collect(objects[..i], f), download)
      {
        CollectNext(objects, i, f);
        ApplyAllConcat(before, Collect(objects[..i], f), f(objects[i]), download);
        FetchObject(objects[i], download);
      }
      assert objects[..|objects|] == objects;
    }

    /** The whole fetch: it fails, changing nothing, exactly when the World does not answer. */
    method Fetch(names: Option<seq<string>>, world: World, download: Download) returns (ok: bool)
      requires Valid()
      modifies this`renderables, this`primitives, this`relativePose, this`tracked, this`downloads
      ensures Valid()
      ensures ok <==> world(Requested(names)).Some?
      ensures names.Some? && names.value != [] ==> (ok <==> world(names).Some?)
      ensures names.None? || names.value == [] ==> (ok <==> world(None).Some?)
      ensures !ok ==> Maps() == old(Maps()) && downloads == old(downloads)
      ensures ok ==> var items := ItemsOf(cfg, world(Requested(names)).value);
                     Maps() == ApplyAll(old(Maps()), items, download)
                     && downloads == old(downloads) + Downloads(old(Maps()), items, download)
    {
      var reply := world(if names == Some([]) then None else names);
      if reply.None? {
        return false;
      }
      FetchReply(reply.value, download);
      hide ItemsOf, TrackedOk, LogOk, ApplyAll, Downloads;
      FetchKeepsMaps(cfg, old(Maps()), ItemsOf(cfg, reply.value), download, published);
      return true;
    }

    // ---- add ----

    /** The first locked region of an ADD: the shapes of one tracked frame, id by id. */
    method Snapshot(frame: string) returns (meshes: map<string, (Bytes, Pose)>, solids: map<string, (Solid, Pose)>)
      requires frame in tracked
      ensures meshes == MeshPart(Maps(), tracked[frame]) && solids == PrimitivePart(Maps(), tracked[frame])
      // cached bytes decide for the mesh list; every entry has the pose recorded for its id
      ensures forall id :: id in meshes <==> id in tracked[frame] && id in relativePose && id in renderables
      ensures forall id :: id in meshes ==> meshes[id] == (renderables[id], relativePose[id])
      ensures forall id :: id in solids <==> id in tracked[frame] && id in relativePose && id !in renderables && id in primitives
      ensures forall id :: id in solids ==> solids[id] == (primitives[id], relativePose[id])
    {
      meshes, solids := map[], map[];
      var todo, done := tracked[frame], {};
      while todo != {}
        invariant done + todo == tracked[frame] && done !! todo
        invariant meshes == MeshPart(Maps(), done) && solids == PrimitivePart(Maps(), done)
        decreases todo
      {
        var id :| id in todo;
        todo, done := todo - {id}, done + {id};
        if id in relativePose {
          if id in renderables {
            meshes := meshes[id := (renderables[id], relativePose[id])];
          } else if id in primitives {
            solids := solids[id := (primitives[id], relativePose[id])];
          }
        }
      }
    }

    /** Outside the lock: meshes that do not decode are left out of the message. */
    method Decode(meshes: map<string, (Bytes, Pose)>) returns (decoded: map<string, (Bytes, Pose)>)
      ensures decoded == Decoded(cfg, meshes)
    {
      decoded := map[];
      var todo, done := meshes.Keys, {};
      while todo != {}
        invariant done + todo == meshes.Keys && done !! todo
        invariant decoded == map id | id in done && cfg.decodes(meshes[id].0) :: meshes[id]
        decreases todo
      {
        var id :| id in todo;
        todo, done := todo - {id}, done + {id};
        if cfg.decodes(meshes[id].0) {
          decoded := decoded[id := meshes[id]];
        }
      }
    }

    /** Any iteration order over the tracked frames. */
    method FrameOrder() returns (order: seq<string>)
      ensures Enumerates(order, tracked.Keys)
    {
      order := [];
      var todo := tracked.Keys;
      while todo != {}
        invariant todo <= tracked.Keys
        invariant Enumerates(order, tracked.Keys - todo)
        decreases todo
      {
        var f :| f in todo;
        todo := todo - {f};
        order := order + [f];
      }
    }

    method AddCollisionObjectsToScene(names: Option<seq<string>>, now: real) returns (ghost order: seq<string>)
      requires Valid()
      modifies this`published
      ensures Valid() && Maps() == old(Maps())
      ensures names.None? ==> Enumerates(order, tracked.Keys)
      ensures published == old(published) + AddMessages(cfg, Maps(), FramesToAdd(names, order), now)
      ensures AddsOf(cfg, Maps(), FramesToAdd(names, order), now, published[|old(published)|..])
      ensures InScene(published) == InScene(old(published)) + set f | f in FramesToAdd(names, order) && f in tracked
      ensures names.None? ==> InScene(published) == tracked.Keys
    {
      hide TrackedOk, LogOk, MeshPart, PrimitivePart, Decoded, InScene, AddsOf;
      var frames;
      order := [];
      if names.None? {
        frames := FrameOrder();
        order := frames;
      } else {
        frames := names.value;
      }
      var messages := [];
      for i := 0 to |frames|
        invariant unchanged(this)
        invariant messages == AddMessages(cfg, Maps(), frames[..i], now)
      {
        assert frames[..i + 1][..i] == frames[..i];
        if frames[i] in tracked {
          var meshes, solids := Snapshot(frames[i]);
          var decoded := Decode(meshes);
          messages := messages + [Add(frames[i], now, decoded, solids)];
        }
      }
      assert frames[..|frames|] == frames;
      AddKeepsLog(cfg, Maps(), published, frames, now);
      AddMessagesExact(cfg, Maps(), frames, now);
      published := published + messages;
      if names.None? {
        FullPassCovers(cfg, Maps(), old(published), order);
      }
    }

    // ---- remove ----

    method RemoveCollisionObject(frame: string, now: real)
      requires Valid()
      modifies this`tracked, this`lastPose, this`lastTime, this`published
      ensures Valid()
      ensures Maps() == RemoveFrame(old(Maps()), frame)
      ensures published == old(published) + [Remove(frame, now)]
    {
      hide TrackedOk, LogOk;
      RemoveKeepsTracked(Maps(), frame);
      RemoveKeepsLog(cfg, Maps(), published, frame, now);
      tracked := tracked - {frame};
      lastPose := lastPose - {frame};
      lastTime := lastTime - {frame};
      published := published + [Remove(frame, now)];
    }

    // ---- update ----

    /** One frame of an update: the scan stops at the first transform for the frame. */
    method UpdateFrame(frame: string, transforms: seq<Transform>, now: real) returns (messages: seq<Message>)
      requires frame in tracked
      modifies this`lastPose, this`lastTime
      ensures messages == MoveOf(cfg, old(Maps()), frame, transforms, now)
      ensures var moving, t := Moves(cfg, old(Maps()), frame, transforms, now), FirstMatch(transforms, frame);
              && (moving ==> t.Some? && lastPose == old(lastPose)[frame := PoseOf(t.value)] && lastTime == old(lastTime)[frame := now])
              && (!moving ==> lastPose == old(lastPose) && lastTime == old(lastTime))
      // it moves when the period has passed and the pose has changed enough, or nothing was sent before
      ensures SentWhenDue(cfg, old(Maps()), frame, transforms, now, messages)
    {
      FrameMoves(cfg, Maps(), frame, transforms, now);
      hide InDeadband, SentWhenDue;
      for i := 0 to |transforms|
        invariant FirstMatch(transforms, frame) == FirstMatch(transforms[i..], frame)
      {
        var t := transforms[i];
        assert transforms[i..][1..] == transforms[i + 1..];
        if t.child == frame {
          assert FirstMatch(transforms, frame) == Some(t);
          hide FirstMatch;
          var pose := PoseOf(t);
          if frame in lastTime {
            if cfg.rateHz > 0.0 {
              var minPeriod := MinPeriod(cfg.rateHz);
              if now - lastTime[frame] < minPeriod {
                return [];
              }
            }
          }
          if frame in lastPose {
            if InDeadband(cfg, lastPose[frame], pose) {
              return [];
            }
          }
          var meshes, solids := Snapshot(frame);
          var move := Move(frame, now, t.parent, pose, PosesOnly(meshes), PosesOnly(solids));
          lastPose := lastPose[frame := pose];
          lastTime := lastTime[frame := now];
          return [move];
        }
      }
      return [];
    }

    method UpdateCollisionObjects(transforms: seq<Transform>, now: real) returns (ghost order: seq<string>)
      requires Valid()
      modifies this`lastPose, this`lastTime, this`published
      ensures Valid()
      ensures Enumerates(order, tracked.Keys)
      ensures Maps() == AfterUpdate(cfg, old(Maps()), transforms, now)
      ensures published == old(published) + MoveMessages(cfg, old(Maps()), order, transforms, now)
      // a MOVE of a frame exactly when its first transform asks for one
      ensures forall f, i: nat :: f in tracked && FirstFor(transforms, f, i) ==>
                Answers(cfg, old(published), published, f, transforms[i], now)
    {
      hide TrackedOk, LogOk, Moves, Decide, MoveOf, Answers, Enumerates, UpdateFrames, AfterUpdate, MoveMessages;
      NoneEnumerated();
      ghost var s := Maps();
      var messages := [];
      var todo := tracked.Keys;
      order := [];
      UpdateNone(cfg, s, transforms, now);
      MoveMessagesNone(cfg, s, transforms, now);
      assert tracked.Keys - todo == {};
      while todo != {}
        invariant todo <= tracked.Keys
        invariant Enumerates(order, tracked.Keys - todo)
        invariant Maps() == UpdateFrames(cfg, s, tracked.Keys - todo, transforms, now)
        invariant messages == MoveMessages(cfg, s, order, transforms, now)
        invariant published == old(published) && tracked == old(tracked)
        decreases todo
      {
        var f :| f in todo;
        ghost var done := tracked.Keys - todo;
        OneMoreEnumerated(order, done, f);
        UpdateLocal(cfg, s, done, transforms, now, f);
        var move := UpdateFrame(f, transforms, now);
        UpdateNext(cfg, s, done, transforms, now, f);
        assert tracked.Keys - (todo - {f}) == done + {f};
        todo := todo - {f};
        MoveMessagesNext(cfg, s, order + [f], transforms, now);
        assert (order + [f])[..|order|] == order;
        order := order + [f];
        messages := messages + move;
      }
      assert tracked.Keys - todo == s.tracked.Keys;
      WholeUpdate(cfg, s, transforms, now);
      UpdateKeepsTracked(cfg, s, transforms, now);
      UpdateKeepsLog(cfg, s, published, transforms, order, now);
      UpdateAnswers(cfg, s, published, transforms, order, now);
      published := published + messages;
    }

    // ---- the mailbox ----

    method QueueNames(names: seq<string>)
      modifies this`pending, this`wake
      ensures Mailbox() == SyncMailbox.QueueNames(old(Mailbox()), names)
    {
      if names != [] {
        if pending.Some? {
          pending := Some(pending.value + names);
        } else {
          assert [] + names == names;
          pending := Some(names);
        }
        wake := true;
      }
    }

    method TakeBatch() returns (batch: Option<seq<string>>)
      modifies this`pending, this`wake
      ensures batch == old(pending) && Mailbox() == SyncMailbox.TakeBatch(old(Mailbox()))
    {
      batch := pending;
      pending := None;
      wake := false;
    }

    /** One round of the sync thread: a batch whose fetch fails is dropped. */
    method SyncRound(world: World, download: Download, now: real)
      returns (batch: Option<seq<string>>, ok: bool, ghost order: seq<string>)
      requires Valid()
      modifies this
      ensures Valid()
      ensures batch == old(pending) && Mailbox() == SyncMailbox.TakeBatch(old(Mailbox()))
      ensures tfFrames == old(tfFrames) && lastPose == old(lastPose) && lastTime == old(lastTime)
      ensures ok <==> world(Requested(batch)).Some?
      ensures !ok ==> Maps() == old(Maps()) && published == old(published)
      ensures ok ==> Maps() == ApplyAll(old(Maps()), ItemsOf(cfg, world(Requested(batch)).value), download)
      // after a fetch the frames of the batch are added, or all of them without one
      ensures ok ==> published == old(published) + AddMessages(cfg, Maps(), FramesToAdd(batch, order), now)
      ensures ok ==> AddsOf(cfg, Maps(), FramesToAdd(batch, order), now, published[|old(published)|..])
      ensures ok && batch.None? ==> Enumerates(order, tracked.Keys) && InScene(published) == tracked.Keys
    {
      hide TrackedOk, LogOk, ItemsOf, ApplyAll, Downloads, InScene, AddMessages, AddsOf, Enumerates;
      order := [];
      batch := TakeBatch();
      ok := Fetch(batch, world, download);
      if ok {
        ApplyAllKeepsPoses(old(Maps()), ItemsOf(cfg, world(Requested(batch)).value), download);
        order := AddCollisionObjectsToScene(batch, now);
      }
    }

    /** The trigger service: a full fetch, then an ADD of everything tracked even if the fetch failed. */
    method SyncService(world: World, download: Download, now: real) returns (success: bool, ghost order: seq<string>)
      requires Valid()
      modifies this`renderables, this`primitives, this`relativePose, this`tracked, this`downloads, this`published
      ensures Valid()
      ensures success <==> world(None).Some?
      ensures Maps() == if success then ApplyAll(old(Maps()), ItemsOf(cfg, world(None).value), download) else old(Maps())
      ensures published == old(published) + AddMessages(cfg, Maps(), order, now)
      ensures Enumerates(order, tracked.Keys) && AddsOf(cfg, Maps(), order, now, published[|old(published)|..])
      ensures InScene(published) == tracked.Keys
    {
      hide TrackedOk, LogOk, ItemsOf, ApplyAll, Downloads, InScene, AddMessages, AddsOf, Enumerates;
      success := Fetch(None, world, download);
      order := AddCollisionObjectsToScene(None, now);
    }

    // ---- the TF callback ----

    method RemoveVanished(present: set<string>, clock: nat -> real) returns (ghost removed: seq<string>, readings: nat)
      requires Valid()
      modifies this`tracked, this`lastPose, this`lastTime, this`published
      ensures Valid()
      ensures Enumerates(removed, tfFrames - present) && readings == |removed|
      ensures Maps() == RemoveAll(old(Maps()), removed)
      ensures published == old(published) + RemoveMessages(removed, clock)
      // one REMOVE per frame, each with its own reading of the clock
      ensures |published| == |old(published)| + |removed|
      ensures forall k :: 0 <= k < |removed| ==> published[|old(published)| + k] == Remove(removed[k], clock(k))
    {
      hide TrackedOk, LogOk, Enumerates, RemoveFrame, RemoveAll, RemoveMessages;
      NoneEnumerated();
      NoneRemoved(Maps(), clock);
      ghost var s := Maps();
      var todo := tfFrames;
      removed, readings := [], 0;
      ghost var gone := {};
      while todo != {}
        invariant Valid() && todo <= tfFrames == old(tfFrames)
        invariant gone == tfFrames - todo - present && Enumerates(removed, gone)
        invariant Maps() == RemoveAll(s, removed)
        invariant published == old(published) + RemoveMessages(removed, clock) && readings == |removed|
        decreases todo
      {
        var f :| f in todo;
        if f !in present {
          OneMoreEnumerated(removed, gone, f);
          gone := gone + {f};
          OneMoreRemoved(s, removed, f, clock);
          RemoveCollisionObject(f, clock(readings));
          removed, readings := removed + [f], readings + 1;
        }
        todo := todo - {f};
      }
      assert gone == tfFrames - present;
      RemoveMessagesAre(removed, clock);
    }

    /** Any order of the discovered names. */
    method NameOrder(names: set<string>) returns (order: seq<string>)
      ensures Enumerates(order, names)
    {
      order := [];
      var todo := names;
      while todo != {}
        invariant todo <= names
        invariant Enumerates(order, names - todo)
        decreases todo
      {
        var n :| n in todo;
        todo := todo - {n};
        order := order + [n];
      }
    }

    /** The loop over the transforms: renamed, with the frames they are for and the objects not seen before. */
    method ReadTransforms(msg: seq<Transform>) returns (transforms: seq<Transform>, frames: set<string>, names: set<string>)
      ensures transforms == RenamedAll(cfg, msg) && frames == Children(transforms) && names == Discovered(cfg, tfFrames, msg)
    {
      transforms, frames, names := [], {}, {};
      for i := 0 to |msg|
        invariant transforms == RenamedAll(cfg, msg[..i])
        invariant frames == Children(transforms)
        invariant names == Discovered(cfg, tfFrames, msg[..i])
      {
        var parent := StripTfPrefixes(msg[i].parent, cfg.stripPrefixes);
        var child := StripTfPrefixes(msg[i].child, cfg.stripPrefixes);
        var t := msg[i].(parent := cfg.tfPrefix + parent, child := cfg.tfPrefix + child);
        DiscoveredNext(cfg, tfFrames, msg, i);
        frames := frames + {t.child};
        if t.child !in tfFrames {
          names := names + {BeforeFirstSlash(child)};
        }
        transforms := transforms + [t];
      }
      assert msg[..|msg|] == msg;
    }

    /** The clock is read anew for each removal and for the update. */
    method OnTfMessage(msg: seq<Transform>, clock: nat -> real)
      returns (ghost removed: seq<string>, ghost queued: seq<string>, ghost order: seq<string>)
      requires Valid()
      modifies this
      ensures Valid()
      ensures renderables == old(renderables) && primitives == old(primitives) && relativePose == old(relativePose)
      ensures forall f :: f in tfFrames <==> exists i :: 0 <= i < |msg| && NamesFrame(cfg, msg[i].child, f)
      // every frame that vanished from the stream is removed, each once
      ensures Enumerates(removed, old(tfFrames) - tfFrames)
      ensures forall f :: f in tracked <==> f in old(tracked) && f !in old(tfFrames) - tfFrames
      // the objects of frames not seen before are queued, each once and without a slash
      ensures Enumerates(queued, Discovered(cfg, old(tfFrames), msg))
      ensures forall n :: n in queued ==> '/' !in n
      ensures forall x :: x in queued <==> exists i :: 0 <= i < |msg| && NewObject(cfg, old(tfFrames), msg[i], x)
      ensures Mailbox() == SyncMailbox.QueueNames(old(Mailbox()), queued)
      // and what is left is updated, each frame once
      ensures Enumerates(order, tracked.Keys)
      ensures Maps() == AfterUpdate(cfg, RemoveAll(old(Maps()), removed), RenamedAll(cfg, msg), clock(|removed|))
      ensures published == old(published) + RemoveMessages(removed, clock)
                           + MoveMessages(cfg, RemoveAll(old(Maps()), removed), order, RenamedAll(cfg, msg), clock(|removed|))
      // with a MOVE of a frame exactly when its first transform in the message asks for one
      ensures forall f, i: nat, t :: f in tracked && FirstNamed(cfg, msg, f, i) && Restates(cfg, msg[i], t) ==>
                Answers(cfg, old(published), published, f, t, clock(|removed|))
    {
      hide TrackedOk, LogOk, Moves, Decide, MoveMessages, AfterUpdate, Answers, RenamedAll, RemoveMessages;
      hide NamesFrame, FirstFor, FirstNamed, NewObject, Restates;
      var transforms, frames, names := ReadTransforms(msg);
      MessageRead(cfg, tfFrames, msg);
      var readings;
      removed, readings := RemoveVanished(frames, clock);
      RemoveAllTracked(old(Maps()), removed);
      ghost var middle := Maps();
      if names != {} {
        var toQueue := NameOrder(names);
        queued := toQueue;
        QueueNames(toQueue);
      } else {
        queued := [];
      }
      tfFrames := frames;
      assert Maps() == middle;
      order := UpdateCollisionObjects(transforms, clock(readings));
      UpdateSameTracked(cfg, middle, transforms, clock(readings));
      CallbackAnswers(cfg, old(published), published, removed, tracked.Keys, msg, clock);
    }
  }

  // ---- helpers of the methods ----

  lemma NoneRemoved(s: Store, clock: nat -> real)
    ensures RemoveAll(s, []) == s && RemoveMessages([], clock) == []
  {
  }

  lemma {:induction false} RemoveMessagesAre(frames: seq<string>, clock: nat -> real)
    ensures |RemoveMessages(frames, clock)| == |frames|
    ensures forall k :: 0 <= k < |frames| ==> RemoveMessages(frames, clock)[k] == Remove(frames[k], clock(k))
  {
    if frames != [] {
      RemoveMessagesAre(frames[..|frames| - 1], clock);
    }
  }

  lemma OneMoreRemoved(s: Store, removed: seq<string>, f: string, clock: nat -> real)
    ensures RemoveAll(s, removed + [f]) == RemoveFrame(RemoveAll(s, removed), f)
    ensures RemoveMessages(removed + [f], clock) == RemoveMessages(removed, clock) + [Remove(f, clock(|removed|))]
  {
  }

  lemma NoneEnumerated()
    ensures Enumerates([], {})
  {
  }

  lemma OneMoreEnumerated(order: seq<string>, done: set<string>, f: string)
    requires Enumerates(order, done) && f !in done
    ensures Enumerates(order + [f], done + {f})
  {
  }

  lemma MoveMessagesNone(cfg: SyncConfig, s: Store, transforms: seq<Transform>, now: real)
    ensures MoveMessages(cfg, s, [], transforms, now) == []
  {
  }

  lemma FrameMoves(cfg: SyncConfig, s: Store, f: string, transforms: seq<Transform>, now: real)
    requires f in s.tracked
    ensures SentWhenDue(cfg, s, f, transforms, now, MoveOf(cfg, s, f, transforms, now))
  {
    hide Decide, PeriodPassed, BarelyMoved;
    forall i: nat | FirstFor(transforms, f, i)
      ensures MoveOf(cfg, s, f, transforms, now) != [] <==>
                 && (f in s.lastTime ==> PeriodPassed(cfg, s.lastTime[f], now))
                 && (f in s.lastPose ==> !BarelyMoved(cfg, s.lastPose[f], transforms[i]))
    {
      DecideOnEntries(cfg, s, f, transforms, now, i);
    }
  }

  lemma UpdateAnswers(cfg: SyncConfig, s: Store, log: seq<Message>, transforms: seq<Transform>, order: seq<string>, now: real)
    requires LogOk(cfg, s, log) && Enumerates(order, s.tracked.Keys)
    ensures forall f, i: nat :: f in s.tracked && FirstFor(transforms, f, i) ==>
              Answers(cfg, log, log + MoveMessages(cfg, s, order, transforms, now), f, transforms[i], now)
  {
    hide LogOk, Enumerates, MoveMessages, Answers;
    forall f, i: nat | f in s.tracked && FirstFor(transforms, f, i)
      ensures Answers(cfg, log, log + MoveMessages(cfg, s, order, transforms, now), f, transforms[i], now)
    {
      UpdateSends(cfg, s, log, transforms, order, now, f);
    }
  }

  lemma WholeUpdate(cfg: SyncConfig, s: Store, transforms: seq<Transform>, now: real)
    ensures UpdateFrames(cfg, s, s.tracked.Keys, transforms, now) == AfterUpdate(cfg, s, transforms, now)
    ensures AfterUpdate(cfg, s, transforms, now).tracked == s.tracked
  {
  }

  lemma NoItems(s: Store, download: Download)
    ensures ApplyAll(s, [], download) == s && Downloads(s, [], download) == 0
  {
  }

  lemma ApplyAllNext(s: Store, done: seq<Item>, item: Item, download: Download)
    ensures ApplyAll(s, done + [item], download) == ApplyItem(ApplyAll(s, done, download), item, download)
    ensures Downloads(s, done + [item], download)
         == Downloads(s, done, download) + DownloadsItem(ApplyAll(s, done, download), item)
  {
  }

  lemma {:induction false} FetchKeepsMaps(cfg: SyncConfig, s: Store, items: seq<Item>, download: Download, log: seq<Message>)
    requires TrackedOk(s) && LogOk(cfg, s, log)
    ensures TrackedOk(ApplyAll(s, items, download)) && LogOk(cfg, ApplyAll(s, items, download), log)
  {
    hide TrackedOk, LogOk;
    ApplyAllKeepsTracked(s, items, download);
    ApplyAllKeepsPoses(s, items, download);
    FetchKeepsLog(cfg, s, ApplyAll(s, items, download), log);
  }

  lemma {:induction false} ApplyAllKeepsTracked(s: Store, items: seq<Item>, download: Download)
    requires TrackedOk(s)
    ensures TrackedOk(ApplyAll(s, items, download))
  {
    hide TrackedOk;
    if items != [] {
      var k := |items| - 1;
      var u, item := ApplyAll(s, items[..k], download), items[k];
      ApplyAllKeepsTracked(s, items[..k], download);
      match item
      case PrimitiveItem(frame, id, pose, solid) =>
        RecordKeepsTracked(u, u.(primitives := u.primitives[id := solid]), frame, id, pose);
      case MeshItem(frame, id, pose, ref) =>
        if id in u.renderables {
          RecordKeepsTracked(u, u, frame, id, pose);
        } else if download(ref).Some? {
          RecordKeepsTracked(u, CacheMesh(u, id, download(ref).value), frame, id, pose);
        }
    }
  }

  lemma {:induction false} ApplyAllKeepsPoses(s: Store, items: seq<Item>, download: Download)
    ensures var t := ApplyAll(s, items, download);
            t.lastPose == s.lastPose && t.lastTime == s.lastTime && s.tracked.Keys <= t.tracked.Keys
  {
    if items != [] {
      ApplyAllKeepsPoses(s, items[..|items| - 1], download);
    }
  }

  lemma FullPassCovers(cfg: SyncConfig, s: Store, log: seq<Message>, order: seq<string>)
    requires LogOk(cfg, s, log) && Enumerates(order, s.tracked.Keys)
    ensures InScene(log) + (set f | f in order && f in s.tracked) == s.tracked.Keys
  {
  }

  lemma UpdateNone(cfg: SyncConfig, s: Store, transforms: seq<Transform>, now: real)
    ensures UpdateFrames(cfg, s, {}, transforms, now) == s
  {
  }

  /** What a frame does next depends on its own entries only, which earlier frames left alone. */
  lemma UpdateLocal(cfg: SyncConfig, s: Store, done: set<string>, transforms: seq<Transform>, now: real, f: string)
    requires f !in done
    ensures var t := UpdateFrames(cfg, s, done, transforms, now);
            && Moves(cfg, t, f, transforms, now) == Moves(cfg, s, f, transforms, now)
            && MoveOf(cfg, t, f, transforms, now) == MoveOf(cfg, s, f, transforms, now)
  {
  }

  lemma UpdateNext(cfg: SyncConfig, s: Store, done: set<string>, transforms: seq<Transform>, now: real, f: string)
    requires f !in done
    ensures var t, u := UpdateFrames(cfg, s, done, transforms, now), UpdateFrames(cfg, s, done + {f}, transforms, now);
            && (Moves(cfg, s, f, transforms, now) ==>
                  FirstMatch(transforms, f).Some?
                  && u == t.(lastPose := t.lastPose[f := PoseOf(FirstMatch(transforms, f).value)], lastTime := t.lastTime[f := now]))
            && (!Moves(cfg, s, f, transforms, now) ==> u == t)
  {
    MovesFirstMatch(cfg, s, transforms, now, f);
    hide Decide, FirstMatch, PoseOf, Moves, MovedPoses, MovedTimes;
    if Moves(cfg, s, f, transforms, now) {
      MovedNext(cfg, s, done, transforms, now, f);
      PlusUpdate(s.lastPose, MovedPoses(cfg, s, done, transforms, now), f, PoseOf(FirstMatch(transforms, f).value));
      PlusUpdate(s.lastTime, MovedTimes(cfg, s, done, transforms, now), f, now);
    } else {
      MovedSame(cfg, s, done, transforms, now, f);
    }
  }

  lemma MovesFirstMatch(cfg: SyncConfig, s: Store, transforms: seq<Transform>, now: real, f: string)
    ensures Moves(cfg, s, f, transforms, now) ==>
              FirstMatch(transforms, f).Some? && Decide(cfg, s, f, transforms, now) == FirstMatch(transforms, f)
  {
  }

  lemma MovedNext(cfg: SyncConfig, s: Store, done: set<string>, transforms: seq<Transform>, now: real, f: string)
    requires f !in done && Moves(cfg, s, f, transforms, now) && Decide(cfg, s, f, transforms, now).Some?
    ensures MovedPoses(cfg, s, done + {f}, transforms, now)
         == MovedPoses(cfg, s, done, transforms, now)[f := PoseOf(Decide(cfg, s, f, transforms, now).value)]
    ensures MovedTimes(cfg, s, done + {f}, transforms, now) == MovedTimes(cfg, s, done, transforms, now)[f := now]
  {
  }

  lemma MovedSame(cfg: SyncConfig, s: Store, done: set<string>, transforms: seq<Transform>, now: real, f: string)
    requires f !in done && !Moves(cfg, s, f, transforms, now)
    ensures MovedPoses(cfg, s, done + {f}, transforms, now) == MovedPoses(cfg, s, done, transforms, now)
    ensures MovedTimes(cfg, s, done + {f}, transforms, now) == MovedTimes(cfg, s, done, transforms, now)
  {
  }

  /** Removing other frames leaves the moves of a frame as they are. */
  lemma {:induction false} RemovesKeepMoves(log: seq<Message>, removed: seq<string>, clock: nat -> real, f: string)
    requires f !in removed
    ensures MovesSince(log + RemoveMessages(removed, clock), f) == MovesSince(log, f)
  {
    hide MovesSince, InScene;
    if removed == [] {
      assert log + [] == log;
    } else {
      var k := |removed| - 1;
      assert removed == removed[..k] + [removed[k]];
      RemovesKeepMoves(log, removed[..k], clock, f);
      var before := log + RemoveMessages(removed[..k], clock);
      LogSnoc(before, Remove(removed[k], clock(k)), f);
      assert log + RemoveMessages(removed, clock) == before + [Remove(removed[k], clock(k))];
    }
  }

  /** The update inside the callback, seen from before the removals and on the message as it came. */
  lemma CallbackAnswers(cfg: SyncConfig, log: seq<Message>, after: seq<Message>, removed: seq<string>, left: set<string>,
                        msg: seq<Transform>, clock: nat -> real)
    requires forall f :: f in left ==> f !in removed
    requires forall f, i: nat :: f in left && FirstFor(RenamedAll(cfg, msg), f, i) ==>
               Answers(cfg, log + RemoveMessages(removed, clock), after, f, RenamedAll(cfg, msg)[i], clock(|removed|))
    ensures forall f, i: nat, t :: f in left && FirstNamed(cfg, msg, f, i) && Restates(cfg, msg[i], t) ==>
              Answers(cfg, log, after, f, t, clock(|removed|))
  {
    forall f, i: nat, t | f in left && FirstNamed(cfg, msg, f, i) && Restates(cfg, msg[i], t)
      ensures Answers(cfg, log, after, f, t, clock(|removed|))
    {
      RemovesKeepMoves(log, removed, clock, f);
      FirstRenamed(cfg, msg, f, i);
      RestatesOnce(cfg, msg[i], t, RenamedAll(cfg, msg)[i]);
      hide RemoveMessages, MovesSince, MoveDue, OneMoreMove, FirstFor, FirstNamed, Restates, RenamedAll;
    }
  }

  lemma {:induction false} RemoveAllTracked(s: Store, frames: seq<string>)
    ensures var t := RemoveAll(s, frames);
            && (forall f :: f in t.tracked <==> f in s.tracked && f !in frames)
            && t.renderables == s.renderables && t.primitives == s.primitives && t.relativePose == s.relativePose
  {
    if frames != [] {
      var k := |frames| - 1;
      RemoveAllTracked(s, frames[..k]);
      assert frames == frames[..k] + [frames[k]];
    }
  }

  lemma UpdateSameTracked(cfg: SyncConfig, s: Store, transforms: seq<Transform>, now: real)
    ensures var t := AfterUpdate(cfg, s, transforms, now);
            t.tracked == s.tracked && t.renderables == s.renderables && t.primitives == s.primitives && t.relativePose == s.relativePose
  {
  }
}
