/**
 Which entries of a World reply the items of a fetch are made for: their frame, id, pose and shape
 in terms of the reply itself.
 */
module SceneItems {
  import opened Wrappers
  import opened Geometry
  import opened Names
  import opened SceneStore
  import opened SceneFetch

  /** An inner geometry of a reply with all it is nested in, and a short name for the object. */
  datatype Source = Source(owner: WorldObject, entity: Entity, named: NamedGeometry, inner: InnerGeometry, short: string)

  /** A collision geometry of a named object; the short name is its last segment, and not excluded. */
  ghost predicate InReply(cfg: SyncConfig, reply: seq<WorldObject>, src: Source) {
    && src.owner in reply && src.owner.name != ""
    && src.entity in src.owner.entities && src.entity.geometries.Some?
    && src.named in src.entity.geometries.value && src.named.key == "Intrinsic_Collision"
    && src.inner in src.named.inner
    && IsLastSegment(src.short, StripPrefixes(src.owner.name, cfg.stripPrefixes)) && src.short !in cfg.excluded
  }

  /** A shape the scene can show, and the solid that shows it; a capsule is shown as a cylinder. */
  predicate ShownAs(shape: Shape, solid: Solid) {
    match shape
    case BoxShape(x, y, z) => solid.kind.Box? && solid.dimensions == [x, y, z]
    case SphereShape(radius) => solid.kind.Sphere? && solid.dimensions == [radius]
    case CylinderShape(length, radius) => solid.kind.Cylinder? && solid.dimensions == [length, radius]
    case CapsuleShape(length, radius) => solid.kind.Cylinder? && solid.dimensions == [length, radius]
    case _ => false
  }

  /** Member k of a primitive set: a single one has the id of the set, several are numbered. */
  predicate IsMember(shapes: seq<Shape>, k: nat, id: string, item: Item) {
    && k < |shapes| && item.PrimitiveItem? && ShownAs(shapes[k], item.solid)
    && item.id == if |shapes| == 1 then id else id + "_prim_" + Decimal(k)
  }

  ghost predicate MadeFor(cfg: SyncConfig, src: Source, item: Item) {
    var frame := cfg.tfPrefix + src.short + "/" + src.entity.name;
    var id := "/" + frame + "/" + src.inner.name;
    && item.frame == frame
    && item.pose == (match src.inner.refTShape
                     case Some(pose) => pose
                     case None => Pose(Vec3(0.0, 0.0, 0.0), Quat(1.0, 0.0, 0.0, 0.0)))
    && match src.inner.data
       case MeshReference(ref) => item.MeshItem? && item.ref == ref && item.id == id
       case PrimitiveSet(shapes) => exists k: nat :: IsMember(shapes, k, id, item)
       case NoCollisionData => false
  }

  // ---- lists collected from lists ----

  lemma {:induction false} CollectFrom<T>(xs: seq<T>, f: T -> seq<Item>, item: Item) returns (x: T)
    requires item in Collect(xs, f)
    ensures x in xs && item in f(x)
  {
    var k := |xs| - 1;
    if item in f(xs[k]) {
      x := xs[k];
    } else {
      x := CollectFrom(xs[..k], f, item);
    }
  }

  lemma {:induction false} CollectHas<T>(xs: seq<T>, f: T -> seq<Item>, x: T, item: Item)
    requires x in xs && item in f(x)
    ensures item in Collect(xs, f)
  {
    var k := |xs| - 1;
    if x != xs[k] {
      assert xs == xs[..k] + [xs[k]];
      CollectHas(xs[..k], f, x, item);
    }
  }

  /** Collecting keeps the order: what earlier elements give comes before what later ones give. */
  lemma {:induction false} CollectConcat<T>(xs: seq<T>, ys: seq<T>, f: T -> seq<Item>)
    ensures Collect(xs + ys, f) == Collect(xs, f) + Collect(ys, f)
  {
    if ys == [] {
      assert xs + ys == xs;
    } else {
      var k := |ys| - 1;
      CollectConcat(xs, ys[..k], f);
      assert (xs + ys)[..|xs + ys| - 1] == xs + ys[..k];
    }
  }

  lemma CollectOne<T>(x: T, f: T -> seq<Item>)
    ensures Collect([x], f) == f(x)
  {
    assert [x][..0] == [];
    assert Collect([x], f) == [] + f(x);
  }

  // ---- the items of one inner geometry ----

  lemma SolidShown(shape: Shape, solid: Solid)
    ensures ShownAs(shape, solid) <==> ToSolid(shape) == Some(solid)
  {
  }

  lemma {:induction false} MembersFrom(frame: string, meshId: string, pose: Pose, shapes: seq<Shape>, n: nat, item: Item)
    requires n <= |shapes|
    ensures item in PrimitiveItems(frame, meshId, pose, shapes, n) <==>
            item.frame == frame && item.pose == pose && exists k: nat :: k < n && IsMember(shapes, k, meshId, item)
  {
    if n > 0 {
      MembersFrom(frame, meshId, pose, shapes, n - 1, item);
      if item.PrimitiveItem? {
        SolidShown(shapes[n - 1], item.solid);
      }
      hide ShownAs;
      assert IsMember(shapes, n - 1, meshId, item) <==>
             item.PrimitiveItem? && ToSolid(shapes[n - 1]) == Some(item.solid) && item.id == PrimitiveId(meshId, n - 1, |shapes|);
      hide IsMember, ToSolid, PrimitiveId, Decimal;
    }
  }

  lemma InnerItemsFrom(cfg: SyncConfig, src: Source, item: Item)
    requires src.short == ShortName(cfg, src.owner.name)
    ensures item in InnerItems(cfg, src.owner.name, src.entity.name, src.inner) <==>
            src.short !in cfg.excluded && MadeFor(cfg, src, item)
  {
    hide ShortName, IsMember, PrimitiveItems;
    var frame := FrameName(cfg.tfPrefix, src.short, src.entity.name);
    var id := MeshId(frame, src.inner.name);
    assert frame == cfg.tfPrefix + src.short + "/" + src.entity.name && id == "/" + frame + "/" + src.inner.name;
    if src.inner.data.PrimitiveSet? {
      var shapes := src.inner.data.shapes;
      MembersFrom(frame, id, PoseOrDefault(src.inner.refTShape), shapes, |shapes|, item);
      MemberBound(shapes, id, item);
    }
    hide FrameName, MeshId;
  }

  lemma MemberBound(shapes: seq<Shape>, id: string, item: Item)
    ensures forall k: nat :: IsMember(shapes, k, id, item) ==> k < |shapes|
  {
  }

  // ---- the items of a reply ----

  /** Every item of a fetch is made for a collision geometry of the reply. */
  lemma ItemSource(cfg: SyncConfig, reply: seq<WorldObject>, item: Item) returns (src: Source)
    requires item in ItemsOf(cfg, reply)
    ensures InReply(cfg, reply, src) && MadeFor(cfg, src, item)
  {
    hide InnerItems, MadeFor, ShortName, IsLastSegment, Collect;
    var o := CollectFrom(reply, x => ObjectItems(cfg, x), item);
    var e := CollectFrom(o.entities, x => EntityItems(cfg, o.name, x), item);
    var n := CollectFrom(e.geometries.value, x => NamedItems(cfg, o.name, e.name, x), item);
    var g := CollectFrom(n.inner, x => InnerItems(cfg, o.name, e.name, x), item);
    src := Source(o, e, n, g, ShortName(cfg, o.name));
    ShortNameIs(cfg, o.name, src.short);
    InnerItemsFrom(cfg, src, item);
  }

  lemma ShortNameIs(cfg: SyncConfig, objectName: string, short: string)
    ensures IsLastSegment(short, StripPrefixes(objectName, cfg.stripPrefixes)) <==> short == ShortName(cfg, objectName)
  {
    LastSegmentIs(short, StripPrefixes(objectName, cfg.stripPrefixes));
  }

  /** And for every such geometry and everything made for it there is the item. */
  lemma SourceItem(cfg: SyncConfig, reply: seq<WorldObject>, src: Source, item: Item)
    requires InReply(cfg, reply, src) && MadeFor(cfg, src, item)
    ensures item in ItemsOf(cfg, reply)
  {
    hide InnerItems, MadeFor, ShortName, IsLastSegment, Collect;
    var o, e, n := src.owner, src.entity, src.named;
    ShortNameIs(cfg, o.name, src.short);
    InnerItemsFrom(cfg, src, item);
    CollectHas(n.inner, x => InnerItems(cfg, o.name, e.name, x), src.inner, item);
    CollectHas(e.geometries.value, x => NamedItems(cfg, o.name, e.name, x), n, item);
    CollectHas(o.entities, x => EntityItems(cfg, o.name, x), e, item);
    CollectHas(reply, x => ObjectItems(cfg, x), o, item);
  }

  /** The items of a reply, exactly. */
  lemma ItemsExact(cfg: SyncConfig, reply: seq<WorldObject>, item: Item)
    ensures item in ItemsOf(cfg, reply) <==> exists src :: InReply(cfg, reply, src) && MadeFor(cfg, src, item)
  {
    hide ItemsOf, InReply, MadeFor;
    if item in ItemsOf(cfg, reply) {
      var src := ItemSource(cfg, reply, item);
    }
    forall src | InReply(cfg, reply, src) && MadeFor(cfg, src, item)
      ensures item in ItemsOf(cfg, reply)
    {
      SourceItem(cfg, reply, src, item);
    }
  }
}
