/**
 One fetch pass: what the World reply asks to record, and what recording it does to the store.
 The nested loops of `FetchAndSynchronizeCollisionObjects` are flattened into a list of items;
 an item is either a mesh that may have to be downloaded or a primitive.
 */
module SceneFetch {
  import opened Wrappers
  import opened Geometry
  import opened Names
  import opened SceneStore
  import ObjectGeometry

  // ---- the World reply ----

  datatype Shape =
    | BoxShape(x: real, y: real, z: real)
    | CylinderShape(length: real, radius: real)
    | SphereShape(radius: real)
    | CapsuleShape(length: real, radius: real)
    | UnsupportedShape
    | MissingShape

  datatype GeometryData = MeshReference(ref: string) | PrimitiveSet(shapes: seq<Shape>) | NoCollisionData

  /** The pose is absent when the reply carries no well-formed 4x4 matrix. */
  datatype InnerGeometry = InnerGeometry(name: string, refTShape: Option<Pose>, data: GeometryData)

  datatype NamedGeometry = NamedGeometry(key: string, inner: seq<InnerGeometry>)

  datatype Entity = Entity(name: string, geometries: Option<seq<NamedGeometry>>)

  datatype WorldObject = WorldObject(name: string, entities: seq<Entity>)

  const COLLISION_KEY := "Intrinsic_Collision"

  function PoseOrDefault(p: Option<Pose>): Pose {
    if p.Some? then p.value else DEFAULT_POSE
  }

  /** A capsule becomes the cylinder of the same length and radius. */
  function ToSolid(shape: Shape): Option<Solid> {
    match shape
    case BoxShape(x, y, z) => Some(ObjectGeometry.SolidPrimitive(ObjectGeometry.Box, [x, y, z]))
    case CylinderShape(l, r) => Some(ObjectGeometry.SolidPrimitive(ObjectGeometry.Cylinder, [l, r]))
    case SphereShape(r) => Some(ObjectGeometry.SolidPrimitive(ObjectGeometry.Sphere, [r]))
    case CapsuleShape(l, r) => Some(ObjectGeometry.SolidPrimitive(ObjectGeometry.Cylinder, [l, r]))
    case UnsupportedShape => None
    case MissingShape => None
  }

  // ---- the items of a reply ----

  datatype Item =
    | MeshItem(frame: string, id: string, pose: Pose, ref: string)
    | PrimitiveItem(frame: string, id: string, pose: Pose, solid: Solid)

  function Collect<T>(xs: seq<T>, f: T -> seq<Item>): seq<Item> {
    if xs == [] then [] else Collect(xs[..|xs| - 1], f) + f(xs[|xs| - 1])
  }

  /** The items of the first k members of a primitive set. */
  function PrimitiveItems(frame: string, meshId: string, pose: Pose, shapes: seq<Shape>, k: nat): seq<Item>
    requires k <= |shapes|
  {
    if k == 0 then []
    else
      PrimitiveItems(frame, meshId, pose, shapes, k - 1)
      + match ToSolid(shapes[k - 1])
        case None => []
        case Some(solid) => [PrimitiveItem(frame, PrimitiveId(meshId, k - 1, |shapes|), pose, solid)]
  }

  function ShortName(cfg: SyncConfig, objectName: string): string {
    AfterLastSlash(StripPrefixes(objectName, cfg.stripPrefixes))
  }

  function InnerItems(cfg: SyncConfig, objectName: string, entityName: string, g: InnerGeometry): seq<Item> {
    var short := ShortName(cfg, objectName);
    if short in cfg.excluded then []
    else
      var frame := FrameName(cfg.tfPrefix, short, entityName);
      var id := MeshId(frame, g.name);
      match g.data
      case MeshReference(ref) => [MeshItem(frame, id, PoseOrDefault(g.refTShape), ref)]
      case PrimitiveSet(shapes) => PrimitiveItems(frame, id, PoseOrDefault(g.refTShape), shapes, |shapes|)
      case NoCollisionData => []
  }

  function NamedItems(cfg: SyncConfig, objectName: string, entityName: string, n: NamedGeometry): seq<Item> {
    if n.key != COLLISION_KEY then [] else Collect(n.inner, g => InnerItems(cfg, objectName, entityName, g))
  }

  function EntityItems(cfg: SyncConfig, objectName: string, e: Entity): seq<Item> {
    if e.geometries.None? then [] else Collect(e.geometries.value, n => NamedItems(cfg, objectName, e.name, n))
  }

  function ObjectItems(cfg: SyncConfig, o: WorldObject): seq<Item> {
    if o.name == "" then [] else Collect(o.entities, e => EntityItems(cfg, o.name, e))
  }

  function ItemsOf(cfg: SyncConfig, reply: seq<WorldObject>): seq<Item> {
    Collect(reply, o => ObjectItems(cfg, o))
  }

  // ---- recording items, with the outcome of each download ----

  type Download = string -> Option<Bytes>

  function ApplyItem(s: Store, item: Item, download: Download): Store {
    match item
    case PrimitiveItem(frame, id, pose, solid) => RecordPrimitive(s, frame, id, pose, solid)
    case MeshItem(frame, id, pose, ref) =>
      if id in s.renderables then RecordMesh(s, frame, id, pose)
      else
        match download(ref)
        case None => s
        case Some(bytes) => RecordMesh(CacheMesh(s, id, bytes), frame, id, pose)
  }

  function ApplyAll(s: Store, items: seq<Item>, download: Download): Store {
    if items == [] then s
    else ApplyItem(ApplyAll(s, items[..|items| - 1], download), items[|items| - 1], download)
  }

  function DownloadsItem(s: Store, item: Item): nat {
    if item.MeshItem? && item.id !in s.renderables then 1 else 0
  }

  /** How many downloads the pass asks for. */
  function Downloads(s: Store, items: seq<Item>, download: Download): nat {
    if items == [] then 0
    else
      var k := |items| - 1;
      Downloads(s, items[..k], download) + DownloadsItem(ApplyAll(s, items[..k], download), items[k])
  }

  lemma {:induction false} ApplyAllConcat(s: Store, a: seq<Item>, b: seq<Item>, download: Download)
    ensures ApplyAll(s, a + b, download) == ApplyAll(ApplyAll(s, a, download), b, download)
    ensures Downloads(s, a + b, download) == Downloads(s, a, download) + Downloads(ApplyAll(s, a, download), b, download)
  {
    hide ApplyItem, DownloadsItem;
    if b == [] {
      assert a + b == a;
    } else {
      var k := |b| - 1;
      ApplyAllConcat(s, a, b[..k], download);
      assert (a + b)[..|a + b| - 1] == a + b[..k];
      assert (a + b)[|a + b| - 1] == b[k];
    }
  }

  /** The last step of a loop over xs. */
  lemma CollectNext<T>(xs: seq<T>, k: nat, f: T -> seq<Item>)
    requires k < |xs|
    ensures Collect(xs[..k + 1], f) == Collect(xs[..k], f) + f(xs[k])
  {
    assert xs[..k + 1][..k] == xs[..k];
  }

  // ---- what a pass writes ----

  /** An item is recorded unless it is a mesh neither cached nor downloadable. */
  predicate Records(s: Store, item: Item, download: Download) {
    item.MeshItem? ==> item.id in s.renderables || download(item.ref).Some?
  }

  /** The items a pass records, in order. */
  function Recorded(s: Store, items: seq<Item>, download: Download): seq<Item> {
    if items == [] then []
    else
      var k := |items| - 1;
      Recorded(s, items[..k], download)
      + if Records(ApplyAll(s, items[..k], download), items[k], download) then [items[k]] else []
  }

  /** The last pose each id is given; the last solid; all ids per frame. */
  function PoseWrites(items: seq<Item>): map<string, Pose> {
    if items == [] then map[] else var k := |items| - 1; PoseWrites(items[..k])[items[k].id := items[k].pose]
  }

  function SolidWrites(items: seq<Item>): map<string, Solid> {
    if items == [] then map[]
    else
      var k := |items| - 1;
      if items[k].PrimitiveItem? then SolidWrites(items[..k])[items[k].id := items[k].solid] else SolidWrites(items[..k])
  }

  function AddId(m: map<string, set<string>>, frame: string, id: string): map<string, set<string>> {
    m[frame := (if frame in m then m[frame] else {}) + {id}]
  }

  function TrackWrites(items: seq<Item>): map<string, set<string>> {
    if items == [] then map[]
    else
      var k := |items| - 1;
      AddId(TrackWrites(items[..k]), items[k].frame, items[k].id)
  }

  function MergeTracked(a: map<string, set<string>>, b: map<string, set<string>>): map<string, set<string>> {
    map f | f in a.Keys + b.Keys :: (if f in a then a[f] else {}) + (if f in b then b[f] else {})
  }

  lemma RecordTracks(s: Store, frame: string, id: string, pose: Pose)
    ensures RecordMesh(s, frame, id, pose)
         == s.(relativePose := s.relativePose[id := pose], tracked := AddId(s.tracked, frame, id))
  {
  }

  /** One item: what it writes when it is recorded, and that it writes nothing when it is not. */
  lemma ApplyItemWrites(s: Store, item: Item, download: Download)
    ensures var t := ApplyItem(s, item, download);
            && t.lastPose == s.lastPose && t.lastTime == s.lastTime
            && (!Records(s, item, download) ==> t == s)
            && (Records(s, item, download) ==>
                  && t.relativePose == s.relativePose[item.id := item.pose]
                  && t.primitives == (if item.PrimitiveItem? then s.primitives[item.id := item.solid] else s.primitives)
                  && t.tracked == AddId(s.tracked, item.frame, item.id))
  {
    match item
    case PrimitiveItem(frame, id, pose, solid) =>
      RecordTracks(s.(primitives := s.primitives[id := solid]), frame, id, pose);
      hide RecordMesh, AddId;
    case MeshItem(frame, id, pose, ref) =>
      RecordTracks(s, frame, id, pose);
      if download(ref).Some? {
        RecordTracks(CacheMesh(s, id, download(ref).value), frame, id, pose);
      }
      hide RecordMesh, AddId;
  }

  lemma PlusEmpty<V>(m: map<string, V>)
    ensures m + map[] == m
  {
  }

  lemma PlusUpdate<V>(m: map<string, V>, w: map<string, V>, id: string, v: V)
    ensures m + w[id := v] == (m + w)[id := v]
  {
  }

  lemma WritesNext(done: seq<Item>, item: Item)
    ensures PoseWrites(done + [item]) == PoseWrites(done)[item.id := item.pose]
    ensures SolidWrites(done + [item])
         == if item.PrimitiveItem? then SolidWrites(done)[item.id := item.solid] else SolidWrites(done)
    ensures TrackWrites(done + [item]) == AddId(TrackWrites(done), item.frame, item.id)
  {
    hide AddId;
    assert (done + [item])[..|done + [item]| - 1] == done;
  }

  /** For every pass, whatever downloads fail: it overwrites with the last pose and solid it records for an id. */
  lemma {:induction false} ApplyAllWrites(s: Store, items: seq<Item>, download: Download)
    ensures var t, done := ApplyAll(s, items, download), Recorded(s, items, download);
            && t.relativePose == s.relativePose + PoseWrites(done)
            && t.primitives == s.primitives + SolidWrites(done)
            && t.lastPose == s.lastPose && t.lastTime == s.lastTime
  {
    if items == [] {
      PlusEmpty(s.relativePose);
      PlusEmpty(s.primitives);
    } else {
      var k := |items| - 1;
      var item, before := items[k], items[..k];
      var u, done := ApplyAll(s, before, download), Recorded(s, before, download);
      ApplyAllWrites(s, before, download);
      ApplyItemWrites(u, item, download);
      hide ApplyItem, PoseWrites, SolidWrites, TrackWrites, AddId;
      if Records(u, item, download) {
        assert Recorded(s, items, download) == done + [item];
        WritesNext(done, item);
        PlusUpdate(s.relativePose, PoseWrites(done), item.id, item.pose);
        if item.PrimitiveItem? {
          PlusUpdate(s.primitives, SolidWrites(done), item.id, item.solid);
        }
      } else {
        assert Recorded(s, items, download) == done + [] == done;
      }
    }
  }

  /** And it merges the ids it records into the sets of their frames, losing none. */
  lemma {:induction false} ApplyAllTracks(s: Store, items: seq<Item>, download: Download)
    ensures ApplyAll(s, items, download).tracked == MergeTracked(s.tracked, TrackWrites(Recorded(s, items, download)))
  {
    if items == [] {
      MergeNone(s.tracked);
    } else {
      var k := |items| - 1;
      var item, before := items[k], items[..k];
      var u, done := ApplyAll(s, before, download), Recorded(s, before, download);
      ApplyAllTracks(s, before, download);
      ApplyItemWrites(u, item, download);
      hide ApplyItem, PoseWrites, SolidWrites, TrackWrites, AddId, MergeTracked;
      if Records(u, item, download) {
        assert Recorded(s, items, download) == done + [item];
        WritesNext(done, item);
        TrackedNext(s.tracked, TrackWrites(done), item.frame, item.id);
      } else {
        assert Recorded(s, items, download) == done + [] == done;
      }
    }
  }

  lemma MergeNone(m: map<string, set<string>>)
    ensures MergeTracked(m, map[]) == m
  {
    var l := MergeTracked(m, map[]);
    assert l.Keys == m.Keys;
    forall f | f in l
      ensures l[f] == m[f]
    {
    }
  }

  lemma TrackedNext(a: map<string, set<string>>, b: map<string, set<string>>, frame: string, id: string)
    ensures AddId(MergeTracked(a, b), frame, id) == MergeTracked(a, AddId(b, frame, id))
  {
    var l, r := AddId(MergeTracked(a, b), frame, id), MergeTracked(a, AddId(b, frame, id));
    assert l.Keys == r.Keys;
    forall f | f in l
      ensures l[f] == r[f]
    {
    }
  }

  ghost predicate MeshesCached(s: Store, items: seq<Item>) {
    forall i :: 0 <= i < |items| && items[i].MeshItem? ==> items[i].id in s.renderables
  }

  /** What is in the cache of t was there before or was downloaded for one of the items. */
  ghost predicate CacheFrom(s: Store, t: Store, items: seq<Item>, download: Download) {
    forall id :: id in t.renderables && id !in s.renderables ==>
                   exists i :: CachedBy(t, id, items, i, download)
  }

  ghost predicate CachedBy(t: Store, id: string, items: seq<Item>, i: nat, download: Download) {
    && i < |items| && items[i].MeshItem? && items[i].id == id && id in t.renderables
    && download(items[i].ref) == Some(t.renderables[id])
  }

  /** The mesh cache only grows: it keeps its bytes, gains only downloads of the pass, and holds every recorded mesh. */
  lemma {:induction false} ApplyAllCaches(s: Store, items: seq<Item>, download: Download)
    ensures var t := ApplyAll(s, items, download);
            && MeshesCached(t, Recorded(s, items, download))
            && s.renderables.Keys <= t.renderables.Keys
            && (forall id :: id in s.renderables ==> t.renderables[id] == s.renderables[id])
            && CacheFrom(s, t, items, download)
  {
    if items != [] {
      var k := |items| - 1;
      var u, t := ApplyAll(s, items[..k], download), ApplyAll(s, items, download);
      ApplyAllCaches(s, items[..k], download);
      ApplyItemCaches(u, items[k], download);
      hide ApplyItem, ApplyAll;
      CacheFromNext(s, u, t, items, download);
      hide CacheFrom;
    }
  }

  lemma CacheFromNext(s: Store, u: Store, t: Store, items: seq<Item>, download: Download)
    requires items != [] && CacheFrom(s, u, items[..|items| - 1], download)
    requires u.renderables.Keys <= t.renderables.Keys && forall id :: id in u.renderables ==> t.renderables[id] == u.renderables[id]
    requires var item := items[|items| - 1];
             forall id :: id in t.renderables && id !in u.renderables ==>
               item.MeshItem? && id == item.id && download(item.ref) == Some(t.renderables[id])
    ensures CacheFrom(s, t, items, download)
  {
    var k := |items| - 1;
    forall id | id in t.renderables && id !in s.renderables
      ensures exists i :: CachedBy(t, id, items, i, download)
    {
      if id in u.renderables {
        var i: nat :| CachedBy(u, id, items[..k], i, download);
        assert CachedBy(t, id, items, i, download);
      } else {
        assert CachedBy(t, id, items, k, download);
      }
    }
  }

  lemma ApplyItemCaches(s: Store, item: Item, download: Download)
    ensures var t := ApplyItem(s, item, download);
            && s.renderables.Keys <= t.renderables.Keys
            && (forall id :: id in s.renderables ==> t.renderables[id] == s.renderables[id])
            && (forall id :: id in t.renderables && id !in s.renderables ==>
                  item.MeshItem? && id == item.id && download(item.ref) == Some(t.renderables[id]))
            && (Records(s, item, download) && item.MeshItem? ==> item.id in t.renderables)
            && (item.PrimitiveItem? || item.id in s.renderables ==> t.renderables == s.renderables)
  {
    match item
    case PrimitiveItem(frame, id, pose, solid) =>
      RecordTracks(s.(primitives := s.primitives[id := solid]), frame, id, pose);
      hide RecordMesh, AddId;
    case MeshItem(frame, id, pose, ref) =>
      RecordTracks(s, frame, id, pose);
      if download(ref).Some? {
        RecordTracks(CacheMesh(s, id, download(ref).value), frame, id, pose);
      }
      hide RecordMesh, AddId;
  }

  // ---- fetching the same world twice ----

  ghost predicate AllDownload(items: seq<Item>, download: Download) {
    forall i :: 0 <= i < |items| && items[i].MeshItem? ==> download(items[i].ref).Some?
  }

  /** When every download succeeds, every item is recorded. */
  lemma {:induction false} AllRecorded(s: Store, items: seq<Item>, download: Download)
    requires AllDownload(items, download)
    ensures Recorded(s, items, download) == items
  {
    if items != [] {
      var k := |items| - 1;
      AllRecorded(s, items[..k], download);
      assert items == items[..k] + [items[k]];
    }
  }

  lemma {:induction false} NothingToDownload(s: Store, items: seq<Item>, download: Download)
    requires MeshesCached(s, items)
    ensures Downloads(s, items, download) == 0 && ApplyAll(s, items, download).renderables == s.renderables
  {
    if items != [] {
      var k := |items| - 1;
      forall i | 0 <= i < k
        ensures items[..k][i] == items[i]
      {
      }
      NothingToDownload(s, items[..k], download);
      ApplyItemCaches(ApplyAll(s, items[..k], download), items[k], download);
      hide ApplyItem;
    }
  }

  /** Fetching an unchanged world again changes nothing and downloads nothing. */
  lemma FetchTwice(s: Store, items: seq<Item>, download: Download)
    requires AllDownload(items, download)
    ensures var t := ApplyAll(s, items, download);
            ApplyAll(t, items, download) == t && Downloads(t, items, download) == 0
  {
    var t := ApplyAll(s, items, download);
    AllRecorded(s, items, download);
    AllRecorded(t, items, download);
    ApplyAllCaches(s, items, download);
    NothingToDownload(t, items, download);
    hide ApplyAll, Downloads, MeshesCached, CacheFrom, Recorded, AllDownload;
    var u := ApplyAll(t, items, download);
    PassTwice(s, t, u, items, download);
  }

  lemma PassTwice(s: Store, t: Store, u: Store, items: seq<Item>, download: Download)
    requires t == ApplyAll(s, items, download) && u == ApplyAll(t, items, download) && u.renderables == t.renderables
    requires Recorded(s, items, download) == items == Recorded(t, items, download)
    ensures u == t
  {
    ApplyAllWrites(s, items, download);
    ApplyAllWrites(t, items, download);
    ApplyAllTracks(s, items, download);
    ApplyAllTracks(t, items, download);
    hide ApplyAll, Recorded, PoseWrites, SolidWrites, TrackWrites, MergeTracked;
    PlusTwice(s.relativePose, PoseWrites(items));
    PlusTwice(s.primitives, SolidWrites(items));
    MergeTwice(s.tracked, TrackWrites(items));
  }

  lemma PlusTwice<V>(m: map<string, V>, w: map<string, V>)
    ensures (m + w) + w == m + w
  {
  }

  lemma MergeTwice(m: map<string, set<string>>, w: map<string, set<string>>)
    ensures MergeTracked(MergeTracked(m, w), w) == MergeTracked(m, w)
  {
    var l, r := MergeTracked(MergeTracked(m, w), w), MergeTracked(m, w);
    assert l.Keys == r.Keys;
    forall f | f in l
      ensures l[f] == r[f]
    {
    }
  }

  // ---- what the items of a reply are called ----

  /** The frame is well named and the id belongs to it. */
  predicate NamedItem(cfg: SyncConfig, item: Item) {
    WellNamed(cfg.tfPrefix, cfg.excluded, item.frame)
  }

  predicate OwnedItem(item: Item) {
    FrameOfId(item.id) == item.frame
  }

  function IsNamed(cfg: SyncConfig): Item -> bool {
    i => NamedItem(cfg, i)
  }

  function IsOwned(): Item -> bool {
    i => OwnedItem(i)
  }

  predicate SlashFreeInner(g: InnerGeometry) {
    '/' !in g.name
  }

  ghost predicate SlashFreeReply(reply: seq<WorldObject>) {
    forall o, e, n, g :: o in reply && e in o.entities && e.geometries.Some? && n in e.geometries.value && g in n.inner ==>
                           SlashFreeInner(g)
  }

  ghost predicate AllItems(items: seq<Item>, p: Item -> bool) {
    forall i :: 0 <= i < |items| ==> p(items[i])
  }

  lemma {:induction false} CollectAll<T>(xs: seq<T>, f: T -> seq<Item>, p: Item -> bool)
    requires forall x :: x in xs ==> AllItems(f(x), p)
    ensures AllItems(Collect(xs, f), p)
  {
    if xs != [] {
      var k := |xs| - 1;
      assert xs[k] in xs && forall x :: x in xs[..k] ==> x in xs;
      CollectAll(xs[..k], f, p);
    }
  }

  lemma {:induction false} PrimitiveItemsAll(frame: string, meshId: string, pose: Pose, shapes: seq<Shape>, k: nat, p: Item -> bool)
    requires k <= |shapes|
    requires forall i: nat, solid: Solid :: i < |shapes| ==> p(PrimitiveItem(frame, PrimitiveId(meshId, i, |shapes|), pose, solid))
    ensures AllItems(PrimitiveItems(frame, meshId, pose, shapes, k), p)
  {
    if k > 0 {
      PrimitiveItemsAll(frame, meshId, pose, shapes, k - 1, p);
    }
  }

  lemma InnerItemsNamed(cfg: SyncConfig, objectName: string, entityName: string, g: InnerGeometry)
    ensures AllItems(InnerItems(cfg, objectName, entityName, g), IsNamed(cfg))
  {
    var short := ShortName(cfg, objectName);
    if short !in cfg.excluded {
      var frame := FrameName(cfg.tfPrefix, short, entityName);
      FrameNameWellNamed(cfg.tfPrefix, cfg.excluded, short, entityName);
      hide WellNamed, FrameName, MeshId, PrimitiveId, ShortName;
      if g.data.PrimitiveSet? {
        var shapes := g.data.shapes;
        PrimitiveItemsAll(frame, MeshId(frame, g.name), PoseOrDefault(g.refTShape), shapes, |shapes|, IsNamed(cfg));
      }
    }
  }

  lemma InnerItemsOwned(cfg: SyncConfig, objectName: string, entityName: string, g: InnerGeometry)
    requires SlashFreeInner(g)
    ensures AllItems(InnerItems(cfg, objectName, entityName, g), IsOwned())
  {
    var short := ShortName(cfg, objectName);
    if short !in cfg.excluded {
      var frame := FrameName(cfg.tfPrefix, short, entityName);
      hide FrameName, MeshId, PrimitiveId, FrameOfId, ShortName;
      FrameOfMeshId(frame, g.name);
      if g.data.PrimitiveSet? {
        var shapes := g.data.shapes;
        forall i: nat | i < |shapes|
          ensures FrameOfId(PrimitiveId(MeshId(frame, g.name), i, |shapes|)) == frame
        {
          FrameOfPrimitiveId(frame, g.name, i, |shapes|);
        }
        PrimitiveItemsAll(frame, MeshId(frame, g.name), PoseOrDefault(g.refTShape), shapes, |shapes|, IsOwned());
      }
    }
  }

  /** Every item of every reply carries a well-named frame; with slash-free inner names its id determines the frame. */
  lemma ItemsNamed(cfg: SyncConfig, reply: seq<WorldObject>)
    ensures AllItems(ItemsOf(cfg, reply), IsNamed(cfg))
    ensures SlashFreeReply(reply) ==> AllItems(ItemsOf(cfg, reply), IsOwned())
  {
    hide AllItems, InnerItems, IsNamed, IsOwned, SlashFreeInner, ItemsOf;
    forall on: string, en: string, g: InnerGeometry
      ensures AllItems(InnerItems(cfg, on, en, g), IsNamed(cfg))
      ensures SlashFreeInner(g) ==> AllItems(InnerItems(cfg, on, en, g), IsOwned())
    {
      InnerItemsNamed(cfg, on, en, g);
      if SlashFreeInner(g) {
        InnerItemsOwned(cfg, on, en, g);
      }
    }
    ItemsSatisfy(cfg, reply, IsNamed(cfg), g => true);
    if SlashFreeReply(reply) {
      ItemsSatisfy(cfg, reply, IsOwned(), g => SlashFreeInner(g));
    }
  }

  lemma ItemsSatisfy(cfg: SyncConfig, reply: seq<WorldObject>, p: Item -> bool, q: InnerGeometry -> bool)
    requires forall o, e, n, g :: o in reply && e in o.entities && e.geometries.Some? && n in e.geometries.value && g in n.inner ==> q(g)
    requires forall on: string, en: string, g :: q(g) ==> AllItems(InnerItems(cfg, on, en, g), p)
    ensures AllItems(ItemsOf(cfg, reply), p)
  {
    forall o | o in reply
      ensures AllItems(ObjectItems(cfg, o), p)
    {
      forall e | e in o.entities
        ensures AllItems(EntityItems(cfg, o.name, e), p)
      {
        if e.geometries.Some? {
          forall n | n in e.geometries.value
            ensures AllItems(NamedItems(cfg, o.name, e.name, n), p)
          {
            CollectAll(n.inner, g => InnerItems(cfg, o.name, e.name, g), p);
          }
          CollectAll(e.geometries.value, n => NamedItems(cfg, o.name, e.name, n), p);
        }
      }
      CollectAll(o.entities, e => EntityItems(cfg, o.name, e), p);
    }
    CollectAll(reply, o => ObjectItems(cfg, o), p);
  }
}
