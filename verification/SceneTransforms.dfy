/**
 What a TF message asks for: the transforms under the names the scene uses, the frames they are for,
 and the objects of frames not seen before.
 */
module SceneTransforms {
  import opened Names
  import opened SceneStore
  import opened SceneLog

  // ---- renaming, and the objects behind the frames ----

  function Renamed(cfg: SyncConfig, t: Transform): Transform {
    t.(parent := cfg.tfPrefix + StripPrefixes(t.parent, cfg.stripPrefixes),
       child := cfg.tfPrefix + StripPrefixes(t.child, cfg.stripPrefixes))
  }

  function RenamedAll(cfg: SyncConfig, ts: seq<Transform>): seq<Transform> {
    seq(|ts|, i requires 0 <= i < |ts| => Renamed(cfg, ts[i]))
  }

  function Children(ts: seq<Transform>): set<string> {
    set t | t in ts :: t.child
  }

  /** The object a frame belongs to: the segment before the first slash. */
  function ObjectOf(cfg: SyncConfig, t: Transform): string {
    BeforeFirstSlash(StripPrefixes(t.child, cfg.stripPrefixes))
  }

  function Discovered(cfg: SyncConfig, known: set<string>, ts: seq<Transform>): set<string> {
    set t | t in ts && Renamed(cfg, t).child !in known :: ObjectOf(cfg, t)
  }

  /** What one more transform of a TF message adds. */
  lemma DiscoveredNext(cfg: SyncConfig, known: set<string>, msg: seq<Transform>, i: nat)
    requires i < |msg|
    ensures var t := Renamed(cfg, msg[i]);
            && RenamedAll(cfg, msg[..i + 1]) == RenamedAll(cfg, msg[..i]) + [t]
            && Children(RenamedAll(cfg, msg[..i + 1])) == Children(RenamedAll(cfg, msg[..i])) + {t.child}
            && Discovered(cfg, known, msg[..i + 1])
               == Discovered(cfg, known, msg[..i]) + if t.child in known then {} else {ObjectOf(cfg, msg[i])}
  {
  }

  // ---- the same on the message as it came ----

  /** The name without its prefix, and with the prefix of the scene in front. */
  predicate NamesFrame(cfg: SyncConfig, name: string, frame: string) {
    frame == cfg.tfPrefix + StripPrefixes(name, cfg.stripPrefixes)
  }

  /** Transform i of the message is the first one for the frame. */
  predicate FirstNamed(cfg: SyncConfig, msg: seq<Transform>, frame: string, i: nat) {
    i < |msg| && NamesFrame(cfg, msg[i].child, frame) && forall j :: 0 <= j < i ==> !NamesFrame(cfg, msg[j].child, frame)
  }

  /** t carries the pose of the transform, between the frames its names stand for. */
  predicate Restates(cfg: SyncConfig, raw: Transform, t: Transform) {
    && NamesFrame(cfg, raw.parent, t.parent) && NamesFrame(cfg, raw.child, t.child)
    && t.translation == raw.translation && t.rotation == raw.rotation
  }

  /** The transform is for a frame not known before, of the object x. */
  predicate NewObject(cfg: SyncConfig, known: set<string>, raw: Transform, x: string) {
    (forall f: string :: NamesFrame(cfg, raw.child, f) ==> f !in known) && IsFirstSegment(x, StripPrefixes(raw.child, cfg.stripPrefixes))
  }

  lemma RenamedRestates(cfg: SyncConfig, raw: Transform)
    ensures Restates(cfg, raw, Renamed(cfg, raw))
  {
  }

  /** Renaming keeps which transform is the first for a frame. */
  lemma FirstRenamed(cfg: SyncConfig, msg: seq<Transform>, f: string, i: nat)
    ensures FirstNamed(cfg, msg, f, i) <==> FirstFor(RenamedAll(cfg, msg), f, i)
    ensures i < |msg| ==> Restates(cfg, msg[i], RenamedAll(cfg, msg)[i])
  {
    hide StripPrefixes;
    forall j: nat | j < |msg|
      ensures NamesFrame(cfg, msg[j].child, f) <==> RenamedAll(cfg, msg)[j].child == f
    {
    }
  }

  /** There is one way to restate a transform. */
  lemma RestatesOnce(cfg: SyncConfig, raw: Transform, t: Transform, u: Transform)
    requires Restates(cfg, raw, t) && Restates(cfg, raw, u)
    ensures t == u
  {
  }

  /** The frames of a message are those its child names stand for. */
  lemma FramesOfMessage(cfg: SyncConfig, msg: seq<Transform>, f: string)
    ensures f in Children(RenamedAll(cfg, msg)) <==> exists i :: 0 <= i < |msg| && NamesFrame(cfg, msg[i].child, f)
  {
    hide StripPrefixes;
    var ts := RenamedAll(cfg, msg);
    forall i | 0 <= i < |msg| && NamesFrame(cfg, msg[i].child, f)
      ensures f in Children(ts)
    {
      assert ts[i] in ts;
    }
    if f in Children(ts) {
      var t :| t in ts && t.child == f;
      var i :| 0 <= i < |ts| && ts[i] == t;
      assert NamesFrame(cfg, msg[i].child, f);
    }
  }

  /** The objects discovered are exactly the first segments of child names of frames not known before. */
  lemma ObjectsOfMessage(cfg: SyncConfig, known: set<string>, msg: seq<Transform>, x: string)
    ensures x in Discovered(cfg, known, msg) <==> exists i :: 0 <= i < |msg| && NewObject(cfg, known, msg[i], x)
  {
    forall t: Transform
      ensures NewObject(cfg, known, t, x) <==> Renamed(cfg, t).child !in known && x == ObjectOf(cfg, t)
    {
      FirstSegmentIs(x, StripPrefixes(t.child, cfg.stripPrefixes));
      assert NamesFrame(cfg, t.child, Renamed(cfg, t).child);
    }
    hide StripPrefixes, BeforeFirstSlash, NewObject, ObjectOf, Renamed;
    forall i | 0 <= i < |msg| && NewObject(cfg, known, msg[i], x)
      ensures x in Discovered(cfg, known, msg)
    {
      assert msg[i] in msg;
    }
  }

  /** Both together, for every frame and name. */
  lemma MessageRead(cfg: SyncConfig, known: set<string>, msg: seq<Transform>)
    ensures forall f :: f in Children(RenamedAll(cfg, msg)) <==> exists i :: 0 <= i < |msg| && NamesFrame(cfg, msg[i].child, f)
    ensures forall x :: x in Discovered(cfg, known, msg) <==> exists i :: 0 <= i < |msg| && NewObject(cfg, known, msg[i], x)
  {
    hide RenamedAll, Children, Discovered, NamesFrame, NewObject;
    forall f
      ensures f in Children(RenamedAll(cfg, msg)) <==> exists i :: 0 <= i < |msg| && NamesFrame(cfg, msg[i].child, f)
    {
      FramesOfMessage(cfg, msg, f);
    }
    forall x
      ensures x in Discovered(cfg, known, msg) <==> exists i :: 0 <= i < |msg| && NewObject(cfg, known, msg[i], x)
    {
      ObjectsOfMessage(cfg, known, msg, x);
    }
  }
}
