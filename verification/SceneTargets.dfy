/**
 The two halves of the system together: the names of the tracked frames are the object ids of the
 planning scene, and a grasp target is looked up among them.
 */
module SceneTargets {
  import opened Names
  import opened SceneStore
  import opened SceneRuns
  import opened TargetResolution

  /** The planning scene lists exactly the tracked frames, in any order. */
  ghost predicate ListsTracked(ids: seq<string>, s: Store) {
    forall id :: id in ids <==> id in s.tracked
  }

  /** The frame belongs to the object of that name. */
  predicate BelongsTo(prefix: string, frame: string, x: string) {
    prefix <= frame && Namespace(prefix, frame) == x
  }

  lemma BelongsIffPrefix(prefix: string, frame: string, x: string)
    requires '/' !in x && prefix <= frame && '/' in frame[|prefix|..]
    ensures BelongsTo(prefix, frame, x) <==> prefix + x + "/" <= frame
  {
    var rest := frame[|prefix|..];
    assert frame == prefix + rest;
    if x + "/" <= rest {
      assert rest == x + "/" + rest[|x| + 1..];
      FirstSegment(x, rest[|x| + 1..]);
    }
    if prefix + x + "/" <= frame {
      assert frame[|prefix|..|prefix| + |x| + 1] == x + "/";
    }
  }

  lemma WholeIsEntity(x: string)
    ensures x + "/" <= x + "/whole"
  {
    assert x + "/whole" == x + "/" + "whole";
  }

  /**
   In every reachable state: take a target that, up to one leading slash, is the frame prefix
   followed by a plain object name, and that is not itself a tracked frame. It means a tracked frame
   of that object exactly when there is one, its "whole" entity if that is tracked; otherwise, and
   always for an excluded object, it stays as it is.
   */
  lemma ObjectNameResolves(cfg: SyncConfig, evs: seq<Event>, ids: seq<string>, target: string, x: string)
    requires target != "" && '/' !in x && CleanId(target) == cfg.tfPrefix + x
    requires ListsTracked(ids, Exec(cfg, INIT, evs).store)
    ensures var tracked, r := Exec(cfg, INIT, evs).store.tracked, Resolve(ids, target);
            && (target in tracked ==> r == target)
            && (target !in tracked ==>
                  && (r in tracked && BelongsTo(cfg.tfPrefix, r, x) <==> exists f :: f in tracked && BelongsTo(cfg.tfPrefix, f, x))
                  && (r == target <==> !exists f :: f in tracked && BelongsTo(cfg.tfPrefix, f, x))
                  && (cfg.tfPrefix + x + "/whole" in tracked ==> r == cfg.tfPrefix + x + "/whole")
                  && (x in cfg.excluded ==> r == target))
  {
    var s := Exec(cfg, INIT, evs).store;
    var clean := cfg.tfPrefix + x;
    NeverExcluded(cfg, evs);
    forall f | f in s.tracked
      ensures f != clean && (BelongsTo(cfg.tfPrefix, f, x) <==> clean + "/" <= f) && (BelongsTo(cfg.tfPrefix, f, x) ==> x !in cfg.excluded)
    {
      assert WellNamed(cfg.tfPrefix, cfg.excluded, f);
      BelongsIffPrefix(cfg.tfPrefix, f, x);
    }
    hide Exec, BelongsTo, WellNamed;
    ResolveUnchangedIff(ids, target);
    if target !in s.tracked {
      if f :| f in s.tracked && BelongsTo(cfg.tfPrefix, f, x) {
        EntityDecides(ids, s, target, clean, f);
      } else {
        NothingFires(ids, s, target, clean);
      }
    }
    WholeIsEntity(clean);
  }

  lemma EntityDecides(ids: seq<string>, s: Store, target: string, clean: string, f: string)
    requires ListsTracked(ids, s) && target != "" && CleanId(target) == clean && target !in s.tracked && clean !in s.tracked
    requires f in s.tracked && clean + "/" <= f
    ensures var r := Resolve(ids, target);
            && r in s.tracked && clean + "/" <= r && r != target
            && (clean + "/whole" in s.tracked ==> r == clean + "/whole")
  {
    hide Resolve;
    var i :| 0 <= i < |ids| && ids[i] == f;
    assert Matches(Entity, target, ids[i]);
    assert Fires(Entity, target, ids);
    assert !Fires(Exact, target, ids) && !Fires(Clean, target, ids);
    var rule := SomeRuleDecides(ids, target);
    DecidedScan(rule, ids, target);
    assert Matches(rule, target, Resolve(ids, target)) && Resolve(ids, target) in ids;
    WholeIsEntity(clean);
    if clean + "/whole" in s.tracked {
      var j :| 0 <= j < |ids| && ids[j] == clean + "/whole";
      assert Matches(Whole, target, ids[j]);
      assert Fires(Whole, target, ids);
    }
  }

  lemma NothingFires(ids: seq<string>, s: Store, target: string, clean: string)
    requires ListsTracked(ids, s) && CleanId(target) == clean && target !in s.tracked
    requires forall f :: f in s.tracked ==> f != clean && !(clean + "/" <= f)
    ensures NoneFires(target, ids)
  {
    WholeIsEntity(clean);
    forall rule
      ensures !Fires(rule, target, ids)
    {
      forall i | 0 <= i < |ids|
        ensures !Matches(rule, target, ids[i])
      {
        assert ids[i] in s.tracked;
      }
    }
  }
}
