/**
 ADD against MOVE over a run: the shapes an ADD gave the planning scene, and the shapes a later MOVE
 of the same frame has poses for.
 */
module SceneShapes {
  import opened Wrappers
  import opened Geometry
  import opened Names
  import opened SceneStore
  import opened SceneFetch
  import opened SceneItems
  import opened SceneRuns
  import opened SceneAgreement

  /** The latest ADD of a frame since its last REMOVE. */
  function LatestAdd(log: seq<Message>, f: string): Option<Message> {
    if log == [] then None
    else
      var k := |log| - 1;
      if log[k].frame != f || log[k].Move? then LatestAdd(log[..k], f)
      else if log[k].Add? then Some(log[k])
      else None
  }

  /** The ids in the mesh list of a message. */
  function MeshList(m: Message): set<string> {
    match m
    case Add(_, _, meshes, _) => meshes.Keys
    case Move(_, _, _, _, meshPoses, _) => meshPoses.Keys
    case Remove(_, _) => {}
  }

  /** The ids in the primitive list of a message. */
  function PrimitiveList(m: Message): set<string> {
    match m
    case Add(_, _, _, primitives) => primitives.Keys
    case Move(_, _, _, _, _, primitivePoses) => primitivePoses.Keys
    case Remove(_, _) => {}
  }

  /** List by list, the messages are about the same ids. */
  predicate SameShapes(a: Message, b: Message) {
    MeshList(a) == MeshList(b) && PrimitiveList(a) == PrimitiveList(b)
  }

  // ---- what an event does to a frame ----

  ghost predicate Adds(sys: Sys, ev: Event, f: string) {
    ev.AddPass? && Enabled(sys, ev) && f in FramesToAdd(ev.names, ev.order) && f in sys.store.tracked
  }

  predicate Drops(ev: Event, f: string) {
    ev.RemoveCall? && ev.frame == f
  }

  /** The event records an item under f whose id f did not have yet. */
  ghost predicate RecordsNew(sys: Sys, ev: Event, f: string) {
    && ev.FetchStep? && Enabled(sys, ev)
    && var w := sys.workers[ev.tid];
       w.todo[0].frame == f && w.todo[0].id !in IdsOf(sys.store, f) && (w.todo[0].PrimitiveItem? || w.phase.Track?)
  }

  /** The event puts an id of f into the mesh cache, which from then on decides in which list the id goes. */
  ghost predicate Caches(sys: Sys, ev: Event, f: string) {
    && ev.FetchStep? && Enabled(sys, ev)
    && var w := sys.workers[ev.tid];
       w.todo[0].MeshItem? && w.phase.Emplace? && w.todo[0].id in IdsOf(sys.store, f) && w.todo[0].id !in sys.store.renderables
  }

  lemma LatestSnoc(log: seq<Message>, m: Message, f: string)
    ensures LatestAdd(log + [m], f) ==
              if m.frame != f || m.Move? then LatestAdd(log, f) else if m.Add? then Some(m) else None
  {
    assert (log + [m])[..|log + [m]| - 1] == log;
  }

  lemma {:induction false} AddsLatest(cfg: SyncConfig, s: Store, log: seq<Message>, frames: seq<string>, now: real, f: string)
    ensures LatestAdd(log + AddMessages(cfg, s, frames, now), f)
         == if f in frames && f in s.tracked then Some(AddMessage(cfg, s, f, now)) else LatestAdd(log, f)
  {
    hide AddMessage, LatestAdd;
    if frames == [] {
      assert log + [] == log;
    } else {
      var k := |frames| - 1;
      var before, m := log + AddMessages(cfg, s, frames[..k], now), AddMessage(cfg, s, frames[k], now);
      AddsLatest(cfg, s, log, frames[..k], now, f);
      assert frames == frames[..k] + [frames[k]];
      if frames[k] in s.tracked {
        AddMessageShape(cfg, s, frames[k], now);
        LatestSnoc(before, m, f);
        assert log + AddMessages(cfg, s, frames, now) == before + [m];
      } else {
        assert AddMessages(cfg, s, frames, now) == AddMessages(cfg, s, frames[..k], now);
      }
    }
  }

  lemma {:induction false} MovesLatest(cfg: SyncConfig, s: Store, log: seq<Message>, order: seq<string>,
                                       transforms: seq<Transform>, now: real, f: string)
    ensures LatestAdd(log + MoveMessages(cfg, s, order, transforms, now), f) == LatestAdd(log, f)
  {
    hide MoveMessage, LatestAdd, Decide, Moves;
    if order == [] {
      assert log + [] == log;
    } else {
      var k := |order| - 1;
      var before := log + MoveMessages(cfg, s, order[..k], transforms, now);
      MovesLatest(cfg, s, log, order[..k], transforms, now, f);
      MoveMessagesNext(cfg, s, order, transforms, now);
      assert log + MoveMessages(cfg, s, order, transforms, now) == before + MoveOf(cfg, s, order[k], transforms, now);
      var more := MoveOf(cfg, s, order[k], transforms, now);
      if more == [] {
        assert before + more == before;
      } else {
        OneMove(cfg, s, order[k], transforms, now);
        LatestSnoc(before, more[0], f);
        assert more == [more[0]];
      }
    }
  }

  lemma OneMove(cfg: SyncConfig, s: Store, g: string, transforms: seq<Transform>, now: real)
    ensures |MoveOf(cfg, s, g, transforms, now)| <= 1
    ensures forall m :: m in MoveOf(cfg, s, g, transforms, now) ==> m.Move?
  {
    hide Decide;
  }

  lemma StepLatest(cfg: SyncConfig, sys: Sys, ev: Event, f: string)
    ensures LatestAdd(Next(cfg, sys, ev).committed, f)
         == if Adds(sys, ev, f) then Some(AddMessage(cfg, sys.store, f, ev.now))
            else if Drops(ev, f) then None
            else LatestAdd(sys.committed, f)
  {
    hide AddMessages, MoveMessages, AddMessage, AfterUpdate, RemoveFrame, WorkerStep, ItemsOf, Enumerates, LatestAdd;
    if Enabled(sys, ev) {
      match ev
      case AddPass(_, names, order, now) => AddsLatest(cfg, sys.store, sys.committed, FramesToAdd(names, order), now, f);
      case UpdateCall(_, transforms, order, now) => MovesLatest(cfg, sys.store, sys.committed, order, transforms, now, f);
      case RemoveCall(_, frame, now) => LatestSnoc(sys.committed, Remove(frame, now), f);
      case _ =>
    }
  }

  /** Unless the frame is removed, its ids only grow, and only by a recorded item. */
  lemma StepIds(cfg: SyncConfig, sys: Sys, ev: Event, f: string)
    requires !Drops(ev, f)
    ensures IdsOf(sys.store, f) <= IdsOf(Next(cfg, sys, ev).store, f)
    ensures IdsOf(sys.store, f) == IdsOf(Next(cfg, sys, ev).store, f) <==> !RecordsNew(sys, ev, f)
  {
    hide AddMessages, MoveMessages, AddMessage, ItemsOf, Enumerates, MovedPoses, MovedTimes;
    if ev.FetchStep? && Enabled(sys, ev) {
      WorkerIds(sys.store, sys.workers[ev.tid], ev.gltf, f);
      hide WorkerStep, IdsOf;
    }
  }

  lemma WorkerIds(s: Store, w: Worker, gltf: Option<Bytes>, f: string)
    requires w.todo != []
    ensures var item := w.todo[0];
            IdsOf(WorkerStep(s, w, gltf).0, f)
            == IdsOf(s, f) + if item.frame == f && (item.PrimitiveItem? || w.phase.Track?) then {item.id} else {}
  {
  }

  // ---- the latest ADD of a run ----

  /** Event n is the latest ADD pass that covered f, and f was not removed since. */
  ghost predicate AddedAt(cfg: SyncConfig, evs: seq<Event>, f: string, n: nat) {
    && n < |evs| && Adds(Exec(cfg, INIT, evs[..n]), evs[n], f)
    && forall m :: n < m < |evs| ==> !Adds(Exec(cfg, INIT, evs[..m]), evs[m], f) && !Drops(evs[m], f)
  }

  lemma AddedAtNext(cfg: SyncConfig, evs: seq<Event>, f: string, n: nat)
    requires evs != []
    ensures var k := |evs| - 1;
            var now := Adds(Exec(cfg, INIT, evs[..k]), evs[k], f);
            AddedAt(cfg, evs, f, n) <==>
            (n == k && now) || (n < k && AddedAt(cfg, evs[..k], f, n) && !now && !Drops(evs[k], f))
  {
    hide Exec, Adds;
    var k := |evs| - 1;
    forall m: nat | m < k
      ensures evs[..k][..m] == evs[..m] && evs[..k][m] == evs[m]
    {
    }
  }

  lemma RunStep(cfg: SyncConfig, evs: seq<Event>, f: string)
    requires evs != []
    ensures var k := |evs| - 1;
            var sys := Exec(cfg, INIT, evs[..k]);
            LatestAdd(Exec(cfg, INIT, evs).committed, f)
            == if Adds(sys, evs[k], f) then Some(AddMessage(cfg, sys.store, f, evs[k].now))
               else if Drops(evs[k], f) then None
               else LatestAdd(sys.committed, f)
  {
    hide Next, Adds, Drops, AddMessage, LatestAdd;
    StepLatest(cfg, Exec(cfg, INIT, evs[..|evs| - 1]), evs[|evs| - 1], f);
  }

  /** The log's latest ADD is the one of that event. */
  lemma {:induction false} AddedAtIs(cfg: SyncConfig, evs: seq<Event>, f: string, n: nat)
    requires AddedAt(cfg, evs, f, n)
    ensures LatestAdd(Exec(cfg, INIT, evs).committed, f) == Some(AddMessage(cfg, Exec(cfg, INIT, evs[..n]).store, f, evs[n].now))
    decreases |evs|
  {
    var k := |evs| - 1;
    RunStep(cfg, evs, f);
    AddedAtNext(cfg, evs, f, n);
    hide Exec, Adds, Drops, AddMessage, LatestAdd, AddedAt;
    if n < k {
      AddedAtIs(cfg, evs[..k], f, n);
      assert evs[..k][..n] == evs[..n] && evs[..k][n] == evs[n];
    }
  }

  /** And a log with such an ADD has such an event. */
  lemma {:induction false} LatestAddEvent(cfg: SyncConfig, evs: seq<Event>, f: string) returns (n: nat)
    requires LatestAdd(Exec(cfg, INIT, evs).committed, f).Some?
    ensures AddedAt(cfg, evs, f, n)
  {
    var k := |evs| - 1;
    RunStep(cfg, evs, f);
    if Adds(Exec(cfg, INIT, evs[..k]), evs[k], f) {
      n := k;
    } else {
      n := LatestAddEvent(cfg, evs[..k], f);
    }
    AddedAtNext(cfg, evs, f, n);
    hide Exec, Adds, Drops, AddMessage, LatestAdd;
  }

  /** Since event n no item has given f a new id. */
  ghost predicate NothingNewSince(cfg: SyncConfig, evs: seq<Event>, f: string, n: nat) {
    forall m :: n <= m < |evs| ==> !RecordsNew(Exec(cfg, INIT, evs[..m]), evs[m], f)
  }

  lemma NothingNewNext(cfg: SyncConfig, evs: seq<Event>, f: string, n: nat)
    requires n < |evs|
    ensures var k := |evs| - 1;
            NothingNewSince(cfg, evs, f, n) <==>
            NothingNewSince(cfg, evs[..k], f, n) && !RecordsNew(Exec(cfg, INIT, evs[..k]), evs[k], f)
  {
    hide Exec, RecordsNew;
    var k := |evs| - 1;
    forall m: nat | m < k
      ensures evs[..k][..m] == evs[..m] && evs[..k][m] == evs[m]
    {
    }
  }

  lemma {:induction false} IdsSince(cfg: SyncConfig, evs: seq<Event>, f: string, n: nat)
    requires n <= |evs| && forall m :: n <= m < |evs| ==> !Drops(evs[m], f)
    ensures IdsOf(Exec(cfg, INIT, evs[..n]).store, f) <= IdsOf(Exec(cfg, INIT, evs).store, f)
    ensures IdsOf(Exec(cfg, INIT, evs[..n]).store, f) == IdsOf(Exec(cfg, INIT, evs).store, f) <==> NothingNewSince(cfg, evs, f, n)
    decreases |evs|
  {
    if n == |evs| {
      assert evs[..n] == evs;
    } else {
      var k := |evs| - 1;
      var before := evs[..k];
      assert before[..n] == evs[..n];
      assert forall m :: n <= m < k ==> before[m] == evs[m];
      NothingNewNext(cfg, evs, f, n);
      hide NothingNewSince, RecordsNew, IdsOf;
      IdsSince(cfg, before, f, n);
      StepIds(cfg, Exec(cfg, INIT, before), evs[k], f);
      assert Exec(cfg, INIT, evs) == Next(cfg, Exec(cfg, INIT, before), evs[k]);
      hide Exec, Next, Drops;
    }
  }

  // ---- the mesh cache ----

  /** The ids of a frame that messages list as meshes; the others they list as primitives. */
  function MeshSide(s: Store, f: string): set<string> {
    set id | id in IdsOf(s, f) && id in s.renderables
  }

  lemma WorkerCached(s: Store, w: Worker, gltf: Option<Bytes>)
    requires w.todo != []
    ensures var item := w.todo[0];
            WorkerStep(s, w, gltf).0.renderables.Keys
            == s.renderables.Keys + if item.MeshItem? && w.phase.Emplace? then {item.id} else {}
  {
    hide RecordMesh;
    match w.todo[0]
    case PrimitiveItem(frame, id, pose, solid) => RecordTracks(s.(primitives := s.primitives[id := solid]), frame, id, pose);
    case MeshItem(frame, id, pose, _) => RecordTracks(s, frame, id, pose);
  }

  lemma StepRenderables(cfg: SyncConfig, sys: Sys, ev: Event)
    ensures Next(cfg, sys, ev).store.renderables.Keys
         == sys.store.renderables.Keys
            + if ev.FetchStep? && Enabled(sys, ev) && sys.workers[ev.tid].todo[0].MeshItem? && sys.workers[ev.tid].phase.Emplace?
              then {sys.workers[ev.tid].todo[0].id} else {}
  {
    hide AddMessages, MoveMessages, AddMessage, ItemsOf, Enumerates, MovedPoses, MovedTimes;
    if ev.FetchStep? && Enabled(sys, ev) {
      WorkerCached(sys.store, sys.workers[ev.tid], ev.gltf);
      hide WorkerStep;
    }
  }

  /** While the ids of a frame stay the same, its meshes only grow, and only by a download. */
  lemma StepCached(cfg: SyncConfig, sys: Sys, ev: Event, f: string)
    requires !Drops(ev, f) && !RecordsNew(sys, ev, f)
    ensures MeshSide(sys.store, f) <= MeshSide(Next(cfg, sys, ev).store, f)
    ensures MeshSide(sys.store, f) == MeshSide(Next(cfg, sys, ev).store, f) <==> !Caches(sys, ev, f)
  {
    StepIds(cfg, sys, ev, f);
    StepRenderables(cfg, sys, ev);
    hide Next, IdsOf, RecordsNew, Drops;
    if Caches(sys, ev, f) {
      var id := sys.workers[ev.tid].todo[0].id;
      assert id in MeshSide(Next(cfg, sys, ev).store, f) && id !in MeshSide(sys.store, f);
    }
  }

  /** Since event n no id of f has entered the mesh cache. */
  ghost predicate NothingCachedSince(cfg: SyncConfig, evs: seq<Event>, f: string, n: nat) {
    forall m :: n <= m < |evs| ==> !Caches(Exec(cfg, INIT, evs[..m]), evs[m], f)
  }

  lemma NothingCachedNext(cfg: SyncConfig, evs: seq<Event>, f: string, n: nat)
    requires n < |evs|
    ensures var k := |evs| - 1;
            NothingCachedSince(cfg, evs, f, n) <==>
            NothingCachedSince(cfg, evs[..k], f, n) && !Caches(Exec(cfg, INIT, evs[..k]), evs[k], f)
  {
    hide Exec, Caches;
    var k := |evs| - 1;
    forall m: nat | m < k
      ensures evs[..k][..m] == evs[..m] && evs[..k][m] == evs[m]
    {
    }
  }

  lemma {:induction false} CachedSince(cfg: SyncConfig, evs: seq<Event>, f: string, n: nat)
    requires n <= |evs| && (forall m :: n <= m < |evs| ==> !Drops(evs[m], f)) && NothingNewSince(cfg, evs, f, n)
    ensures MeshSide(Exec(cfg, INIT, evs[..n]).store, f) <= MeshSide(Exec(cfg, INIT, evs).store, f)
    ensures MeshSide(Exec(cfg, INIT, evs[..n]).store, f) == MeshSide(Exec(cfg, INIT, evs).store, f) <==>
            NothingCachedSince(cfg, evs, f, n)
    decreases |evs|
  {
    if n == |evs| {
      assert evs[..n] == evs;
    } else {
      var k := |evs| - 1;
      var before := evs[..k];
      assert before[..n] == evs[..n];
      assert forall m :: n <= m < k ==> before[m] == evs[m];
      NothingNewNext(cfg, evs, f, n);
      NothingCachedNext(cfg, evs, f, n);
      hide NothingNewSince, NothingCachedSince, RecordsNew, Caches, MeshSide;
      CachedSince(cfg, before, f, n);
      StepCached(cfg, Exec(cfg, INIT, before), evs[k], f);
      assert Exec(cfg, INIT, evs) == Next(cfg, Exec(cfg, INIT, before), evs[k]);
      hide Exec, Next, Drops;
    }
  }

  // ---- shapes ----

  predicate AllDecode(cfg: SyncConfig, s: Store, f: string) {
    forall id :: id in MeshPart(s, IdsOf(s, f)) ==> cfg.decodes(MeshPart(s, IdsOf(s, f))[id].0)
  }

  /** The lookups of both messages: nothing is skipped, and the cache decides the list. */
  lemma PartKeys(s: Store, f: string)
    requires TrackedOk(s) && f in s.tracked
    ensures MeshPart(s, IdsOf(s, f)).Keys == MeshSide(s, f)
    ensures PrimitivePart(s, IdsOf(s, f)).Keys == IdsOf(s, f) - MeshSide(s, f)
  {
    forall id | id in IdsOf(s, f)
      ensures Backed(s, id)
    {
    }
    hide TrackedOk;
  }

  /** An ADD lists the primitives of the frame, and of its meshes those that decode. */
  lemma AddShapes(cfg: SyncConfig, s: Store, f: string, now: real)
    requires TrackedOk(s) && f in s.tracked
    ensures var add := AddMessage(cfg, s, f, now);
            && PrimitiveList(add) == IdsOf(s, f) - MeshSide(s, f)
            && MeshList(add) <= MeshSide(s, f)
            && (MeshList(add) == MeshSide(s, f) <==> AllDecode(cfg, s, f))
  {
    PartKeys(s, f);
    var meshes := MeshPart(s, IdsOf(s, f));
    hide MeshPart, PrimitivePart, TrackedOk, MeshSide, IdsOf;
    var shown := Decoded(cfg, meshes);
    assert shown.Keys <= meshes.Keys;
    if shown.Keys == meshes.Keys {
      forall id | id in meshes
        ensures cfg.decodes(meshes[id].0)
      {
        assert id in shown.Keys;
      }
    }
    if AllDecode(cfg, s, f) {
      assert shown.Keys == meshes.Keys;
    }
  }

  /** A MOVE lists every mesh and every primitive of the frame. */
  lemma MoveShapes(s: Store, f: string, t: Transform, now: real)
    requires TrackedOk(s) && f in s.tracked
    ensures var move := MoveMessage(s, f, t, now);
            MeshList(move) == MeshSide(s, f) && PrimitiveList(move) == IdsOf(s, f) - MeshSide(s, f)
  {
    PartKeys(s, f);
    var meshes, solids := MeshPart(s, IdsOf(s, f)), PrimitivePart(s, IdsOf(s, f));
    assert PosesOnly(meshes).Keys == meshes.Keys && PosesOnly(solids).Keys == solids.Keys;
    hide MeshPart, PrimitivePart, TrackedOk, MeshSide, IdsOf;
  }

  /** Nothing has changed the two lists of the frame since event n, and then they were complete. */
  ghost predicate ShapesKeptSince(cfg: SyncConfig, evs: seq<Event>, f: string, n: nat)
    requires n <= |evs|
  {
    && AllDecode(cfg, Exec(cfg, INIT, evs[..n]).store, f)
    && NothingNewSince(cfg, evs, f, n)
    && NothingCachedSince(cfg, evs, f, n)
  }

  /**
   In every reachable state, the MOVE an update commits for a frame lists, as meshes and as
   primitives, exactly the ids its latest ADD listed, exactly when there is such an ADD since the
   last removal, its meshes all decoded, and since then no fetch has recorded a new id under the
   frame or put one of its ids into the mesh cache.
   */
  lemma MoveMatchesAdd(cfg: SyncConfig, evs: seq<Event>, f: string, t: Transform, now: real)
    requires f in Exec(cfg, INIT, evs).store.tracked
    ensures var sys := Exec(cfg, INIT, evs);
            var add, move := LatestAdd(sys.committed, f), MoveMessage(sys.store, f, t, now);
            (add.Some? && SameShapes(add.value, move)) <==>
            (exists n: nat :: AddedAt(cfg, evs, f, n) && ShapesKeptSince(cfg, evs, f, n))
  {
    var sys := Exec(cfg, INIT, evs);
    if LatestAdd(sys.committed, f).Some? {
      var n := LatestAddEvent(cfg, evs, f);
    }
    forall n: nat | AddedAt(cfg, evs, f, n)
      ensures LatestAdd(sys.committed, f).Some?
      ensures SameShapes(LatestAdd(sys.committed, f).value, MoveMessage(sys.store, f, t, now)) <==>
              ShapesKeptSince(cfg, evs, f, n)
    {
      AddedAtIs(cfg, evs, f, n);
      AddAgainstMove(cfg, evs, f, n, t, now);
    }
    hide Exec, ShapesKeptSince, SameShapes, MoveMessage, LatestAdd;
  }

  lemma AddAgainstMove(cfg: SyncConfig, evs: seq<Event>, f: string, n: nat, t: Transform, now: real)
    requires AddedAt(cfg, evs, f, n) && f in Exec(cfg, INIT, evs).store.tracked
    ensures var s, e := Exec(cfg, INIT, evs[..n]).store, Exec(cfg, INIT, evs).store;
            SameShapes(AddMessage(cfg, s, f, evs[n].now), MoveMessage(e, f, t, now)) <==> ShapesKeptSince(cfg, evs, f, n)
  {
    var s, e := Exec(cfg, INIT, evs[..n]).store, Exec(cfg, INIT, evs).store;
    MapsLinked(cfg, evs[..n]);
    MapsLinked(cfg, evs);
    AddShapes(cfg, s, f, evs[n].now);
    MoveShapes(e, f, t, now);
    IdsSince(cfg, evs, f, n);
    if NothingNewSince(cfg, evs, f, n) {
      CachedSince(cfg, evs, f, n);
    }
    assert MeshSide(s, f) <= IdsOf(s, f) && MeshSide(e, f) <= IdsOf(e, f);
    hide Exec, AllDecode, NothingNewSince, NothingCachedSince, MeshList, PrimitiveList, AddMessage, MoveMessage, IdsOf, MeshSide;
    var add, move := AddMessage(cfg, s, f, evs[n].now), MoveMessage(e, f, t, now);
    ListsAgree(IdsOf(s, f), IdsOf(e, f), MeshSide(s, f), MeshSide(e, f), MeshList(add));
  }

  lemma ListsAgree(ids: set<string>, ids': set<string>, meshes: set<string>, meshes': set<string>, shown: set<string>)
    requires shown <= meshes <= ids <= ids' && meshes' <= ids'
    requires ids == ids' ==> meshes <= meshes'
    ensures (shown == meshes' && ids - meshes == ids' - meshes') <==> (shown == meshes && ids == ids' && meshes == meshes')
  {
    if shown == meshes' && ids - meshes == ids' - meshes' {
      assert ids' == (ids' - meshes') + meshes';
      assert (ids - meshes) + shown <= ids;
    }
  }

  // ---- an id that changes lists ----

  /** A reply with one inner geometry. */
  function OneGeometry(objectName: string, entity: string, g: InnerGeometry): seq<WorldObject> {
    [WorldObject(objectName, [Entity(entity, Some([NamedGeometry(COLLISION_KEY, [g])]))])]
  }

  lemma OneGeometryItems(cfg: SyncConfig, objectName: string, entity: string, g: InnerGeometry)
    requires objectName != ""
    ensures ItemsOf(cfg, OneGeometry(objectName, entity, g)) == InnerItems(cfg, objectName, entity, g)
  {
    hide InnerItems, Collect;
    var n := NamedGeometry(COLLISION_KEY, [g]);
    var e := Entity(entity, Some([n]));
    CollectOne(g, x => InnerItems(cfg, objectName, entity, x));
    CollectOne(n, x => NamedItems(cfg, objectName, entity, x));
    CollectOne(e, x => EntityItems(cfg, objectName, x));
    CollectOne(WorldObject(objectName, [e]), x => ObjectItems(cfg, x));
  }

  /** The primitive item and the mesh item that share an id. */
  datatype Clash = Clash(objectName: string, entity: string, inner: string, radius: real, ref: string, gltf: Bytes)

  function ClashFrame(cfg: SyncConfig, c: Clash): string {
    FrameName(cfg.tfPrefix, ShortName(cfg, c.objectName), c.entity)
  }

  function ClashId(cfg: SyncConfig, c: Clash): string {
    MeshId(ClashFrame(cfg, c), c.inner)
  }

  function FirstReply(c: Clash): seq<WorldObject> {
    OneGeometry(c.objectName, c.entity, InnerGeometry(c.inner, None, PrimitiveSet([SphereShape(c.radius)])))
  }

  function SecondReply(c: Clash): seq<WorldObject> {
    OneGeometry(c.objectName, c.entity, InnerGeometry(c.inner, None, MeshReference(c.ref)))
  }

  /** The World first describes a geometry by one primitive, which is added; then it refers to a mesh. */
  function ClashRun(cfg: SyncConfig, c: Clash, now: real): seq<Event> {
    [StartFetch(0, FirstReply(c)), FetchStep(0, None), AddPass(0, None, [ClashFrame(cfg, c)], now),
     StartFetch(0, SecondReply(c)), FetchStep(0, Some(c.gltf)), FetchStep(0, None), FetchStep(0, None)]
  }

  lemma OnePrimitive(frame: string, meshId: string, pose: Pose, shape: Shape)
    requires ToSolid(shape).Some?
    ensures PrimitiveItems(frame, meshId, pose, [shape], 1) == [PrimitiveItem(frame, meshId, pose, ToSolid(shape).value)]
  {
    assert PrimitiveItems(frame, meshId, pose, [shape], 0) == [];
  }

  lemma ClashItems(cfg: SyncConfig, c: Clash)
    requires c.objectName != "" && ShortName(cfg, c.objectName) !in cfg.excluded
    ensures ItemsOf(cfg, FirstReply(c))
         == [PrimitiveItem(ClashFrame(cfg, c), ClashId(cfg, c), DEFAULT_POSE, ToSolid(SphereShape(c.radius)).value)]
    ensures ItemsOf(cfg, SecondReply(c)) == [MeshItem(ClashFrame(cfg, c), ClashId(cfg, c), DEFAULT_POSE, c.ref)]
  {
    hide ItemsOf, ShortName, FrameName, MeshId, PrimitiveItems;
    OneGeometryItems(cfg, c.objectName, c.entity, InnerGeometry(c.inner, None, PrimitiveSet([SphereShape(c.radius)])));
    OneGeometryItems(cfg, c.objectName, c.entity, InnerGeometry(c.inner, None, MeshReference(c.ref)));
    OnePrimitive(ClashFrame(cfg, c), ClashId(cfg, c), DEFAULT_POSE, SphereShape(c.radius));
  }

  // What the events of this run do to a store that tracks nothing, or just the one id.

  lemma StartStep(cfg: SyncConfig, sys: Sys, reply: seq<WorldObject>, item: Item)
    requires (0 in sys.workers ==> sys.workers[0].todo == []) && ItemsOf(cfg, reply) == [item]
    ensures var next := Next(cfg, sys, StartFetch(0, reply));
            next.store == sys.store && 0 in next.workers && next.workers[0] == Worker([item], Check)
  {
    hide ItemsOf, AddMessages, MoveMessages;
  }

  lemma PrimitiveStep(cfg: SyncConfig, sys: Sys, item: Item)
    requires 0 in sys.workers && sys.workers[0] == Worker([item], Check) && item.PrimitiveItem?
    requires sys.store.tracked == map[] && sys.store.renderables == map[]
    ensures var next := Next(cfg, sys, FetchStep(0, None));
            && next.store.tracked == map[item.frame := {item.id}] && next.store.renderables == map[]
            && 0 in next.workers && next.workers[0].todo == []
  {
    hide AddMessages, MoveMessages;
    assert IdsOf(sys.store, item.frame) + {item.id} == {item.id};
    var next := Next(cfg, sys, FetchStep(0, None));
    assert next.store == RecordPrimitive(sys.store, item.frame, item.id, item.pose, item.solid);
    assert next.store.tracked == sys.store.tracked[item.frame := {item.id}];
  }

  lemma PassStep(cfg: SyncConfig, sys: Sys, f: string, now: real)
    ensures var next := Next(cfg, sys, AddPass(0, None, [f], now));
            next.store == sys.store && next.workers == sys.workers
  {
    hide AddMessages, MoveMessages, Enumerates;
  }

  /** Check, emplace, record: the mesh of the same id. */
  lemma MeshSteps(cfg: SyncConfig, sys: Sys, item: Item, gltf: Bytes)
    requires 0 in sys.workers && sys.workers[0] == Worker([item], Check) && item.MeshItem?
    requires sys.store.tracked == map[item.frame := {item.id}] && sys.store.renderables == map[]
    ensures var one := Next(cfg, sys, FetchStep(0, Some(gltf)));
            var two := Next(cfg, one, FetchStep(0, None));
            var three := Next(cfg, two, FetchStep(0, None));
            && one.store.tracked == two.store.tracked == three.store.tracked == map[item.frame := {item.id}]
            && three.store.renderables == map[item.id := gltf]
  {
    hide AddMessages, MoveMessages;
    var one := Next(cfg, sys, FetchStep(0, Some(gltf)));
    assert one.store == sys.store && one.workers[0] == Worker([item], Emplace(gltf));
    var two := Next(cfg, one, FetchStep(0, None));
    assert two.store == CacheMesh(one.store, item.id, gltf) && two.workers[0] == Worker([item], Track);
    var three := Next(cfg, two, FetchStep(0, None));
    assert three.store == RecordMesh(two.store, item.frame, item.id, item.pose);
    assert IdsOf(two.store, item.frame) + {item.id} == {item.id};
    assert three.store.tracked == two.store.tracked[item.frame := {item.id}];
    assert two.store.renderables == sys.store.renderables[item.id := gltf];
  }

  /** The whole run: the id is tracked from the second event on, and enters the mesh cache in the end. */
  lemma ClashStates(cfg: SyncConfig, c: Clash, now: real)
    requires c.objectName != "" && ShortName(cfg, c.objectName) !in cfg.excluded
    ensures var run, tracked := ClashRun(cfg, c, now), map[ClashFrame(cfg, c) := {ClashId(cfg, c)}];
            && Exec(cfg, INIT, run[..2]).store.renderables == map[]
            && Exec(cfg, INIT, run[..2]).store.tracked == tracked
            && Exec(cfg, INIT, run[..3]).store.tracked == tracked
            && Exec(cfg, INIT, run[..4]).store.tracked == tracked
            && Exec(cfg, INIT, run[..5]).store.tracked == tracked
            && Exec(cfg, INIT, run[..6]).store.tracked == tracked
            && Exec(cfg, INIT, run).store.tracked == tracked
            && Exec(cfg, INIT, run).store.renderables == map[ClashId(cfg, c) := c.gltf]
  {
    var f, x, run := ClashFrame(cfg, c), ClashId(cfg, c), ClashRun(cfg, c, now);
    var p, m := PrimitiveItem(f, x, DEFAULT_POSE, ToSolid(SphereShape(c.radius)).value), MeshItem(f, x, DEFAULT_POSE, c.ref);
    ClashItems(cfg, c);
    assert Exec(cfg, INIT, []) == INIT;
    RunPrefixes(cfg, run);
    hide ItemsOf, FirstReply, SecondReply, Exec, Next, ClashFrame, ClashId;
    StartStep(cfg, INIT, FirstReply(c), p);
    PrimitiveStep(cfg, Exec(cfg, INIT, run[..1]), p);
    PassStep(cfg, Exec(cfg, INIT, run[..2]), f, now);
    StartStep(cfg, Exec(cfg, INIT, run[..3]), SecondReply(c), m);
    MeshSteps(cfg, Exec(cfg, INIT, run[..4]), m, c.gltf);
  }

  lemma RunPrefixes(cfg: SyncConfig, run: seq<Event>)
    requires |run| == 7
    ensures Exec(cfg, INIT, run[..1]) == Next(cfg, Exec(cfg, INIT, []), run[0])
    ensures Exec(cfg, INIT, run[..2]) == Next(cfg, Exec(cfg, INIT, run[..1]), run[1])
    ensures Exec(cfg, INIT, run[..3]) == Next(cfg, Exec(cfg, INIT, run[..2]), run[2])
    ensures Exec(cfg, INIT, run[..4]) == Next(cfg, Exec(cfg, INIT, run[..3]), run[3])
    ensures Exec(cfg, INIT, run[..5]) == Next(cfg, Exec(cfg, INIT, run[..4]), run[4])
    ensures Exec(cfg, INIT, run[..6]) == Next(cfg, Exec(cfg, INIT, run[..5]), run[5])
    ensures Exec(cfg, INIT, run) == Next(cfg, Exec(cfg, INIT, run[..6]), run[6])
  {
    hide Next, Exec;
    assert run[..0] == [] && run[..7] == run;
    forall k: nat | k < 7
      ensures Exec(cfg, INIT, run[..k + 1]) == Next(cfg, Exec(cfg, INIT, run[..k]), run[k])
    {
      ExecSnoc(cfg, INIT, run[..k], run[k]);
      assert run[..k + 1] == run[..k] + [run[k]];
    }
    assert Exec(cfg, INIT, run[..0 + 1]) == Next(cfg, Exec(cfg, INIT, run[..0]), run[0]);
    assert Exec(cfg, INIT, run[..1 + 1]) == Next(cfg, Exec(cfg, INIT, run[..1]), run[1]);
    assert Exec(cfg, INIT, run[..2 + 1]) == Next(cfg, Exec(cfg, INIT, run[..2]), run[2]);
    assert Exec(cfg, INIT, run[..3 + 1]) == Next(cfg, Exec(cfg, INIT, run[..3]), run[3]);
    assert Exec(cfg, INIT, run[..4 + 1]) == Next(cfg, Exec(cfg, INIT, run[..4]), run[4]);
    assert Exec(cfg, INIT, run[..5 + 1]) == Next(cfg, Exec(cfg, INIT, run[..5]), run[5]);
    assert Exec(cfg, INIT, run[..6 + 1]) == Next(cfg, Exec(cfg, INIT, run[..6]), run[6]);
  }

  /**
   The cache condition is needed: the frame of this run has been added with its only shape as a
   primitive, no new id has been recorded since, and yet the MOVE lists the shape as a mesh and
   leaves the primitive of the scene without a pose.
   */
  lemma RecachedIdLosesItsPose(cfg: SyncConfig, c: Clash, t: Transform, now: real)
    requires c.objectName != "" && ShortName(cfg, c.objectName) !in cfg.excluded
    ensures var f, x, run := ClashFrame(cfg, c), ClashId(cfg, c), ClashRun(cfg, c, now);
            var sys := Exec(cfg, INIT, run);
            var add, move := LatestAdd(sys.committed, f), MoveMessage(sys.store, f, t, now);
            && AddedAt(cfg, run, f, 2) && AllDecode(cfg, Exec(cfg, INIT, run[..2]).store, f) && NothingNewSince(cfg, run, f, 2)
            && add.Some? && MeshList(add.value) == {} && PrimitiveList(add.value) == {x}
            && MeshList(move) == {x} && PrimitiveList(move) == {}
  {
    hide MeshPart, PrimitivePart, AllDecode, AddMessages, MoveMessages, Next;
    var f, run := ClashFrame(cfg, c), ClashRun(cfg, c, now);
    ClashStates(cfg, c, now);
    ClashAddedAt(cfg, c, now);
    MapsLinked(cfg, run[..2]);
    MapsLinked(cfg, run);
    var two, seven := Exec(cfg, INIT, run[..2]).store, Exec(cfg, INIT, run).store;
    AddedAtIs(cfg, run, f, 2);
    NoMeshesDecode(cfg, two, f);
    AddShapes(cfg, two, f, now);
    MoveShapes(seven, f, t, now);
    IdsSince(cfg, run, f, 2);
    hide Exec, ClashFrame, ClashId, FirstReply, SecondReply, NothingNewSince, LatestAdd, AddMessage, MoveMessage;
    hide MeshList, PrimitiveList, AddedAt, TrackedOk;
  }

  lemma NoMeshesDecode(cfg: SyncConfig, s: Store, f: string)
    requires TrackedOk(s) && f in s.tracked && s.renderables == map[]
    ensures AllDecode(cfg, s, f)
  {
    hide MeshPart;
    PartKeys(s, f);
  }

  lemma ClashAddedAt(cfg: SyncConfig, c: Clash, now: real)
    requires c.objectName != "" && ShortName(cfg, c.objectName) !in cfg.excluded
    ensures AddedAt(cfg, ClashRun(cfg, c, now), ClashFrame(cfg, c), 2)
  {
    hide Exec, Next, Adds, Drops, ClashFrame, ClashId, FirstReply, SecondReply;
    var f, run := ClashFrame(cfg, c), ClashRun(cfg, c, now);
    ClashStates(cfg, c, now);
    PassAdds(Exec(cfg, INIT, run[..2]), f, now);
    forall m: nat | 2 < m < 7
      ensures !Adds(Exec(cfg, INIT, run[..m]), run[m], f) && !Drops(run[m], f)
    {
      OnlyPassesAdd(Exec(cfg, INIT, run[..m]), run[m], f);
    }
  }

  lemma PassAdds(sys: Sys, f: string, now: real)
    requires sys.store.tracked.Keys == {f}
    ensures Adds(sys, AddPass(0, None, [f], now), f)
  {
    assert Enumerates([f], sys.store.tracked.Keys);
  }

  lemma OnlyPassesAdd(sys: Sys, ev: Event, f: string)
    requires ev.StartFetch? || ev.FetchStep?
    ensures !Adds(sys, ev, f) && !Drops(ev, f)
  {
  }
}
