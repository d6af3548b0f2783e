/**
 From the World to the planning scene: the bytes, solids and poses that ADD and MOVE messages carry,
 in terms of the reply of the World they came from.
 */
module SceneContents {
  import opened SceneStore
  import opened SceneFetch
  import opened SceneItems
  import opened SceneRuns

  // ---- the last item recorded for an id ----

  /** Item j is the last one of the list with its id. */
  predicate IsLast(items: seq<Item>, j: nat, id: string) {
    j < |items| && items[j].id == id && forall k :: j < k < |items| ==> items[k].id != id
  }

  lemma {:induction false} LastWrites(items: seq<Item>, j: nat, id: string)
    requires IsLast(items, j, id)
    ensures id in PoseWrites(items) && PoseWrites(items)[id] == items[j].pose
    ensures items[j].PrimitiveItem? ==> id in SolidWrites(items) && SolidWrites(items)[id] == items[j].solid
    decreases |items|
  {
    var k := |items| - 1;
    if j < k {
      assert items[k].id != id;
      LastWrites(items[..k], j, id);
    }
  }

  lemma {:induction false} LastExists(items: seq<Item>, i: nat, id: string) returns (j: nat)
    requires i < |items| && items[i].id == id
    ensures IsLast(items, j, id)
    decreases |items|
  {
    var k := |items| - 1;
    if items[k].id == id {
      j := k;
    } else {
      j := LastExists(items[..k], i, id);
    }
  }

  lemma {:induction false} RecordedFrom(s: Store, items: seq<Item>, download: Download, item: Item)
    requires item in Recorded(s, items, download)
    ensures item in items
  {
    hide Records, ApplyAll;
    var k := |items| - 1;
    if item in Recorded(s, items[..k], download) {
      RecordedFrom(s, items[..k], download, item);
      assert items == items[..k] + [items[k]];
    }
  }

  // ---- the maps after a fetch ----

  /** What the maps hold for the id of an item: its pose, and either cached bytes or its solid. */
  predicate Holds(s: Store, item: Item) {
    && item.id in s.relativePose && s.relativePose[item.id] == item.pose
    && (item.id !in s.renderables ==>
          item.PrimitiveItem? && item.id in s.primitives && s.primitives[item.id] == item.solid)
  }

  /** After a fetch the maps hold, for each id it recorded, the last item with that id. */
  lemma FetchHolds(s: Store, items: seq<Item>, download: Download, j: nat, id: string)
    requires IsLast(Recorded(s, items, download), j, id)
    ensures Holds(ApplyAll(s, items, download), Recorded(s, items, download)[j])
  {
    var done := Recorded(s, items, download);
    ApplyAllWrites(s, items, download);
    ApplyAllCaches(s, items, download);
    LastWrites(done, j, id);
    hide ApplyAll, Recorded, CacheFrom, PoseWrites, SolidWrites, IsLast;
    assert done[j].MeshItem? ==> done[j].id in ApplyAll(s, items, download).renderables;
  }

  // ---- until the next fetch ----

  /** No event is a step of a fetch; removals, passes, updates and publications may come in any order. */
  predicate NoFetchSteps(evs: seq<Event>) {
    forall k :: 0 <= k < |evs| ==> !evs[k].FetchStep?
  }

  predicate SameContents(s: Store, t: Store) {
    s.relativePose == t.relativePose && s.renderables == t.renderables && s.primitives == t.primitives
  }

  lemma StepKeepsContents(cfg: SyncConfig, sys: Sys, ev: Event)
    requires !ev.FetchStep?
    ensures SameContents(sys.store, Next(cfg, sys, ev).store)
  {
    hide AddMessages, MoveMessages, ItemsOf, Enumerates, MovedPoses, MovedTimes;
  }

  lemma {:induction false} RunKeepsContents(cfg: SyncConfig, sys: Sys, evs: seq<Event>)
    requires NoFetchSteps(evs)
    ensures SameContents(sys.store, Exec(cfg, sys, evs).store)
  {
    if evs != [] {
      var k := |evs| - 1;
      RunKeepsContents(cfg, sys, evs[..k]);
      hide Next;
      StepKeepsContents(cfg, Exec(cfg, sys, evs[..k]), evs[k]);
    }
  }

  // ---- what a message carries ----

  /**
   The message carries the item: with bytes cached for its id, as a mesh of these bytes (unless
   they do not decode), and otherwise as its own solid; at the item's pose in both cases.
   */
  predicate AddCarries(cfg: SyncConfig, s: Store, m: Message, item: Item) {
    && m.Add?
    && if item.id in s.renderables then
         && item.id !in m.primitives
         && (item.id in m.meshes <==> cfg.decodes(s.renderables[item.id]))
         && (item.id in m.meshes ==> m.meshes[item.id] == (s.renderables[item.id], item.pose))
       else
         && item.id !in m.meshes
         && item.PrimitiveItem? && item.id in m.primitives && m.primitives[item.id] == (item.solid, item.pose)
  }

  predicate MoveCarries(s: Store, m: Message, item: Item) {
    && m.Move?
    && if item.id in s.renderables then
         item.id !in m.primitivePoses && item.id in m.meshPoses && m.meshPoses[item.id] == item.pose
       else
         item.id !in m.meshPoses && item.id in m.primitivePoses && m.primitivePoses[item.id] == item.pose
  }

  lemma HeldIsCarried(cfg: SyncConfig, s: Store, f: string, item: Item, t: Transform, now: real)
    requires Holds(s, item) && item.id in IdsOf(s, f)
    ensures AddCarries(cfg, s, AddMessage(cfg, s, f, now), item)
    ensures MoveCarries(s, MoveMessage(s, f, t, now), item)
  {
  }

  /** The ADD of a tracked frame, id by id: every id with a pose and a shape, bytes first; meshes only if they decode. */
  ghost predicate AddOf(cfg: SyncConfig, s: Store, f: string, now: real, m: Message) {
    && m.Add? && m.frame == f && m.stamp == now && f in s.tracked
    && (forall id :: id in m.meshes <==>
          id in s.tracked[f] && id in s.relativePose && id in s.renderables && cfg.decodes(s.renderables[id]))
    && (forall id :: id in m.meshes ==> m.meshes[id] == (s.renderables[id], s.relativePose[id]))
    && (forall id :: id in m.primitives <==>
          id in s.tracked[f] && id in s.relativePose && id !in s.renderables && id in s.primitives)
    && (forall id :: id in m.primitives ==> m.primitives[id] == (s.primitives[id], s.relativePose[id]))
  }

  lemma AddMessageIs(cfg: SyncConfig, s: Store, f: string, now: real)
    requires f in s.tracked
    ensures AddOf(cfg, s, f, now, AddMessage(cfg, s, f, now))
  {
  }

  /** The listed frames that are tracked, in the order of the list. */
  function TrackedAmong(s: Store, frames: seq<string>): seq<string> {
    if frames == [] then []
    else
      var k := |frames| - 1;
      TrackedAmong(s, frames[..k]) + if frames[k] in s.tracked then [frames[k]] else []
  }

  /** These messages are the ADDs of the listed frames that are tracked, one each, in order. */
  ghost predicate AddsOf(cfg: SyncConfig, s: Store, frames: seq<string>, now: real, ms: seq<Message>) {
    && |ms| == |TrackedAmong(s, frames)|
    && forall k :: 0 <= k < |ms| ==> AddOf(cfg, s, TrackedAmong(s, frames)[k], now, ms[k])
  }

  lemma {:induction false} AddMessagesExact(cfg: SyncConfig, s: Store, frames: seq<string>, now: real)
    ensures AddsOf(cfg, s, frames, now, AddMessages(cfg, s, frames, now))
  {
    hide AddOf, AddMessage;
    if frames != [] {
      var k := |frames| - 1;
      AddMessagesExact(cfg, s, frames[..k], now);
      if frames[k] in s.tracked {
        AddMessageIs(cfg, s, frames[k], now);
      }
    }
  }

  /**
   After a fetch, and through every run until a fetch records something again: each ADD and each
   MOVE of a frame carries, for every id of it the fetch recorded, the pose that the matrix of the
   World's reply gave last for the id (identity where there was none), with the cached bytes or
   the solid of the shape it came with.
   */
  lemma SceneShowsReply(cfg: SyncConfig, s: Store, reply: seq<WorldObject>, download: Download, sys: Sys, evs: seq<Event>,
                        f: string, id: string, t: Transform, now: real) returns (j: nat, src: Source)
    requires sys.store == ApplyAll(s, ItemsOf(cfg, reply), download) && NoFetchSteps(evs)
    requires id in IdsOf(Exec(cfg, sys, evs).store, f)
    requires exists i :: 0 <= i < |Recorded(s, ItemsOf(cfg, reply), download)| && Recorded(s, ItemsOf(cfg, reply), download)[i].id == id
    ensures var done, end := Recorded(s, ItemsOf(cfg, reply), download), Exec(cfg, sys, evs).store;
            && IsLast(done, j, id)
            && InReply(cfg, reply, src) && MadeFor(cfg, src, done[j])
            && AddCarries(cfg, end, AddMessage(cfg, end, f, now), done[j])
            && MoveCarries(end, MoveMessage(end, f, t, now), done[j])
  {
    var items := ItemsOf(cfg, reply);
    var done, end := Recorded(s, items, download), Exec(cfg, sys, evs).store;
    var i: nat :| i < |done| && done[i].id == id;
    j := LastExists(done, i, id);
    hide ItemsOf, Recorded, ApplyAll, Exec, AddMessage, MoveMessage, InReply, MadeFor, AddCarries, MoveCarries;
    FetchHolds(s, items, download, j, id);
    RunKeepsContents(cfg, sys, evs);
    HeldIsCarried(cfg, end, f, done[j], t, now);
    RecordedFrom(s, items, download, done[j]);
    src := ItemSource(cfg, reply, done[j]);
  }
}
