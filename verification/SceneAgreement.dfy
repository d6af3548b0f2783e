/**
 What the message log of a run has to do with the state: the last-pose and last-time maps are a
 fold of the log, moves are rate bounded and do not drift, and the scene the log describes never
 shows a frame that is not tracked.
 */
module SceneAgreement {
  import opened Wrappers
  import opened Geometry
  import opened SceneStore
  import opened SceneFetch
  import opened SceneLog
  import opened SceneRuns
  import SyncMailbox

  // ---- the maps as a fold of the committed log ----

  /** The entry of a frame in both maps is its latest MOVE since its last REMOVE. */
  ghost predicate FoldOk(s: Store, log: seq<Message>, f: string) {
    var moves := MovesSince(log, f);
    && (f in s.lastPose <==> moves != [])
    && (f in s.lastTime <==> moves != [])
    && (moves != [] ==>
          var m := moves[|moves| - 1];
          m.Move? && f in s.lastPose && s.lastPose[f] == m.pose && f in s.lastTime && s.lastTime[f] == m.stamp)
  }

  ghost predicate PaceOk(cfg: SyncConfig, log: seq<Message>, f: string) {
    cfg.rateHz > 0.0 ==> RateOk(log, f, MinPeriod(cfg.rateHz))
  }

  ghost predicate LogOk(cfg: SyncConfig, s: Store, log: seq<Message>) {
    && (forall f: string :: FoldOk(s, log, f))
    && (forall f: string :: PaceOk(cfg, log, f))
    && s.lastPose.Keys <= s.tracked.Keys
    && InScene(log) <= s.tracked.Keys
  }

  lemma PaceSnoc(cfg: SyncConfig, log: seq<Message>, m: Message, f: string)
    requires PaceOk(cfg, log, f)
    requires cfg.rateHz > 0.0 ==> Spaced(MovesSince(log + [m], f), MinPeriod(cfg.rateHz))
    ensures PaceOk(cfg, log + [m], f)
  {
    if cfg.rateHz > 0.0 {
      var longer := log + [m];
      forall n | 0 <= n <= |longer|
        ensures Spaced(MovesSince(longer[..n], f), MinPeriod(cfg.rateHz))
      {
        if n <= |log| {
          assert longer[..n] == log[..n];
        } else {
          assert longer[..n] == longer;
        }
      }
    }
  }

  lemma CurrentlySpaced(cfg: SyncConfig, log: seq<Message>, f: string)
    requires PaceOk(cfg, log, f) && cfg.rateHz > 0.0
    ensures Spaced(MovesSince(log, f), MinPeriod(cfg.rateHz))
  {
    assert log[..|log|] == log;
  }

  /** ADD messages touch no moves, and put exactly the tracked ones among the listed frames in the scene. */
  lemma {:induction false} AddsInLog(cfg: SyncConfig, s: Store, log: seq<Message>, frames: seq<string>, now: real, f: string)
    requires PaceOk(cfg, log, f)
    ensures var longer := log + AddMessages(cfg, s, frames, now);
            && MovesSince(longer, f) == MovesSince(log, f)
            && PaceOk(cfg, longer, f)
            && (f in InScene(longer) <==> f in InScene(log) || (f in frames && f in s.tracked))
  {
    hide AddMessage, PaceOk, MovesSince, InScene, Spaced, MinPeriod;
    if frames == [] {
      assert log + [] == log;
    } else {
      var k := |frames| - 1;
      AddsInLog(cfg, s, log, frames[..k], now, f);
      assert frames == frames[..k] + [frames[k]];
      if frames[k] in s.tracked {
        var before, m := log + AddMessages(cfg, s, frames[..k], now), AddMessage(cfg, s, frames[k], now);
        AddMessageShape(cfg, s, frames[k], now);
        LogSnoc(before, m, f);
        if cfg.rateHz > 0.0 {
          CurrentlySpaced(cfg, before, f);
        }
        PaceSnoc(cfg, before, m, f);
        assert log + AddMessages(cfg, s, frames, now) == before + [m];
      } else {
        assert AddMessages(cfg, s, frames, now) == AddMessages(cfg, s, frames[..k], now);
      }
    }
  }

  lemma AddMessageShape(cfg: SyncConfig, s: Store, frame: string, now: real)
    ensures AddMessage(cfg, s, frame, now).Add? && AddMessage(cfg, s, frame, now).frame == frame
  {
  }

  /** The message a frame contributes to an update, if any. */
  function MoveOf(cfg: SyncConfig, s: Store, f: string, transforms: seq<Transform>, now: real): seq<Message> {
    if Moves(cfg, s, f, transforms, now) then [MoveMessage(s, f, Decide(cfg, s, f, transforms, now).value, now)] else []
  }

  ghost predicate Distinct(order: seq<string>) {
    forall i, j :: 0 <= i < j < |order| ==> order[i] != order[j]
  }

  /** Each frame gets at most one MOVE, decided on the state before the update. */
  lemma {:induction false} MovesInLog(cfg: SyncConfig, s: Store, log: seq<Message>, order: seq<string>,
                                      transforms: seq<Transform>, now: real, f: string)
    requires Distinct(order) && FoldOk(s, log, f) && PaceOk(cfg, log, f)
    ensures var longer := log + MoveMessages(cfg, s, order, transforms, now);
            && MovesSince(longer, f) == MovesSince(log, f) + (if f in order then MoveOf(cfg, s, f, transforms, now) else [])
            && PaceOk(cfg, longer, f)
            && InScene(longer) == InScene(log)
  {
    hide PaceOk, FoldOk, InScene, MovesSince;
    if order == [] {
      assert log + [] == log;
    } else {
      var k := |order| - 1;
      var g, earlier := order[k], order[..k];
      assert Distinct(earlier);
      MovesInLog(cfg, s, log, earlier, transforms, now, f);
      assert order == earlier + [g] && g !in earlier;
      var before := log + MoveMessages(cfg, s, earlier, transforms, now);
      hide MoveOf, Moves;
      OneMoveInLog(cfg, s, log, before, g, transforms, now, f);
      assert log + MoveMessages(cfg, s, order, transforms, now) == before + MoveOf(cfg, s, g, transforms, now) by {
        MoveMessagesNext(cfg, s, order, transforms, now);
      }
    }
  }

  lemma MoveMessagesNext(cfg: SyncConfig, s: Store, order: seq<string>, transforms: seq<Transform>, now: real)
    requires order != []
    ensures var k := |order| - 1;
            MoveMessages(cfg, s, order, transforms, now)
            == MoveMessages(cfg, s, order[..k], transforms, now) + MoveOf(cfg, s, order[k], transforms, now)
  {
  }

  lemma OneMoveInLog(cfg: SyncConfig, s: Store, log: seq<Message>, before: seq<Message>, g: string,
                     transforms: seq<Transform>, now: real, f: string)
    requires FoldOk(s, log, f) && PaceOk(cfg, before, f) && PaceOk(cfg, log, f)
    requires f == g ==> MovesSince(before, f) == MovesSince(log, f)
    ensures var longer := before + MoveOf(cfg, s, g, transforms, now);
            && MovesSince(longer, f) == MovesSince(before, f) + (if f == g then MoveOf(cfg, s, f, transforms, now) else [])
            && PaceOk(cfg, longer, f)
            && InScene(longer) == InScene(before)
  {
    hide FoldOk, PaceOk, MoveMessage, Decide, Spaced, MinPeriod;
    if Moves(cfg, s, g, transforms, now) {
      var m := MoveMessage(s, g, Decide(cfg, s, g, transforms, now).value, now);
      MoveMessageShape(s, g, Decide(cfg, s, g, transforms, now).value, now);
      LogSnoc(before, m, f);
      if cfg.rateHz > 0.0 {
        CurrentlySpaced(cfg, before, f);
        if f == g {
          DecidedAfterPeriod(cfg, s, log, transforms, now, f, m);
        }
      }
      PaceSnoc(cfg, before, m, f);
    } else {
      assert before + [] == before;
    }
  }

  lemma MoveMessageShape(s: Store, frame: string, t: Transform, now: real)
    ensures var m := MoveMessage(s, frame, t, now); m.Move? && m.frame == frame && m.pose == PoseOf(t) && m.stamp == now
  {
  }

  /** A frame that may move again has waited a full period since its latest move, whatever the clock did. */
  lemma DecidedAfterPeriod(cfg: SyncConfig, s: Store, log: seq<Message>, transforms: seq<Transform>, now: real, f: string, m: Message)
    requires cfg.rateHz > 0.0 && FoldOk(s, log, f) && Moves(cfg, s, f, transforms, now) && m.stamp == now
    requires Spaced(MovesSince(log, f), MinPeriod(cfg.rateHz))
    ensures Spaced(MovesSince(log, f) + [m], MinPeriod(cfg.rateHz))
  {
  }

  lemma WorkerStepKeepsPoses(s: Store, w: Worker, gltf: Option<Bytes>)
    requires w.todo != []
    ensures var t := WorkerStep(s, w, gltf).0;
            t.lastPose == s.lastPose && t.lastTime == s.lastTime && s.tracked.Keys <= t.tracked.Keys
  {
    hide RecordMesh;
    match w.todo[0]
    case PrimitiveItem(frame, id, pose, solid) =>
      RecordKeepsPoses(s.(primitives := s.primitives[id := solid]), frame, id, pose);
    case MeshItem(frame, id, pose, _) => RecordKeepsPoses(s, frame, id, pose);
  }

  lemma RecordKeepsPoses(s: Store, frame: string, id: string, pose: Pose)
    ensures var t := RecordMesh(s, frame, id, pose);
            t.lastPose == s.lastPose && t.lastTime == s.lastTime && s.tracked.Keys <= t.tracked.Keys
  {
    hide IdsOf;
  }

  lemma RemoveKeepsFold(cfg: SyncConfig, s: Store, log: seq<Message>, frame: string, now: real, f: string)
    requires FoldOk(s, log, f) && PaceOk(cfg, log, f)
    requires f in InScene(log) ==> f in s.tracked
    requires f in s.lastPose ==> f in s.tracked
    ensures var t, longer := RemoveFrame(s, frame), log + [Remove(frame, now)];
            && FoldOk(t, longer, f) && PaceOk(cfg, longer, f)
            && (f in InScene(longer) ==> f in t.tracked)
            && (f in t.lastPose ==> f in t.tracked)
  {
    RemovePace(cfg, log, frame, now, f);
    RemoveFold(s, log, frame, now, f);
    hide MovesSince, InScene, PaceOk, FoldOk, RemoveFrame;
  }

  lemma RemovePace(cfg: SyncConfig, log: seq<Message>, frame: string, now: real, f: string)
    requires PaceOk(cfg, log, f)
    ensures PaceOk(cfg, log + [Remove(frame, now)], f)
  {
    hide Spaced, MinPeriod, PaceOk, MovesSince, InScene;
    var m := Remove(frame, now);
    LogSnoc(log, m, f);
    if cfg.rateHz > 0.0 {
      CurrentlySpaced(cfg, log, f);
    }
    NoMovesSpaced(cfg);
    PaceSnoc(cfg, log, m, f);
  }

  lemma RemoveFold(s: Store, log: seq<Message>, frame: string, now: real, f: string)
    requires FoldOk(s, log, f)
    requires f in InScene(log) ==> f in s.tracked
    requires f in s.lastPose ==> f in s.tracked
    ensures var t, longer := RemoveFrame(s, frame), log + [Remove(frame, now)];
            && FoldOk(t, longer, f)
            && (f in InScene(longer) ==> f in t.tracked)
            && (f in t.lastPose ==> f in t.tracked)
  {
  }

  lemma NoMovesSpaced(cfg: SyncConfig)
    ensures Spaced([], MinPeriod(cfg.rateHz))
  {
  }

  lemma UpdateKeepsFold(cfg: SyncConfig, s: Store, log: seq<Message>, transforms: seq<Transform>, order: seq<string>, now: real, f: string)
    requires FoldOk(s, log, f) && PaceOk(cfg, log, f) && Enumerates(order, s.tracked.Keys)
    requires f in InScene(log) ==> f in s.tracked
    requires f in s.lastPose ==> f in s.tracked
    ensures var t, longer := AfterUpdate(cfg, s, transforms, now), log + MoveMessages(cfg, s, order, transforms, now);
            && FoldOk(t, longer, f) && PaceOk(cfg, longer, f)
            && (f in InScene(longer) ==> f in t.tracked)
            && (f in t.lastPose ==> f in t.tracked)
  {
    MovesInLog(cfg, s, log, order, transforms, now, f);
    FoldAfterUpdate(cfg, s, log, log + MoveMessages(cfg, s, order, transforms, now), transforms, now, f);
    hide MovesSince, InScene, PaceOk, MoveMessages, Decide, Moves, FoldOk, MoveOf;
  }

  lemma FoldAfterUpdate(cfg: SyncConfig, s: Store, log: seq<Message>, longer: seq<Message>, transforms: seq<Transform>, now: real, f: string)
    requires FoldOk(s, log, f) && (f in s.lastPose ==> f in s.tracked)
    requires MovesSince(longer, f) == MovesSince(log, f) + if f in s.tracked then MoveOf(cfg, s, f, transforms, now) else []
    ensures FoldOk(AfterUpdate(cfg, s, transforms, now), longer, f)
    ensures f in AfterUpdate(cfg, s, transforms, now).lastPose ==> f in s.tracked
  {
  }

  lemma AddKeepsLog(cfg: SyncConfig, s: Store, log: seq<Message>, frames: seq<string>, now: real)
    requires LogOk(cfg, s, log)
    ensures LogOk(cfg, s, log + AddMessages(cfg, s, frames, now))
    ensures InScene(log + AddMessages(cfg, s, frames, now)) == InScene(log) + set f | f in frames && f in s.tracked
  {
    var longer := log + AddMessages(cfg, s, frames, now);
    hide AddMessages, PaceOk, InScene, MovesSince;
    forall f: string
      ensures FoldOk(s, longer, f) && PaceOk(cfg, longer, f)
      ensures f in InScene(longer) <==> f in InScene(log) || (f in frames && f in s.tracked)
    {
      assert FoldOk(s, log, f) && PaceOk(cfg, log, f);
      AddsInLog(cfg, s, log, frames, now, f);
    }
  }

  lemma RemoveKeepsLog(cfg: SyncConfig, s: Store, log: seq<Message>, frame: string, now: real)
    requires LogOk(cfg, s, log)
    ensures LogOk(cfg, RemoveFrame(s, frame), log + [Remove(frame, now)])
  {
    var t, longer := RemoveFrame(s, frame), log + [Remove(frame, now)];
    hide PaceOk, InScene, MovesSince, FoldOk, RemoveFrame;
    forall f: string
      ensures FoldOk(t, longer, f) && PaceOk(cfg, longer, f)
      ensures f in InScene(longer) ==> f in t.tracked
      ensures f in t.lastPose ==> f in t.tracked
    {
      assert FoldOk(s, log, f) && PaceOk(cfg, log, f);
      RemoveKeepsFold(cfg, s, log, frame, now, f);
    }
  }

  lemma UpdateKeepsLog(cfg: SyncConfig, s: Store, log: seq<Message>, transforms: seq<Transform>, order: seq<string>, now: real)
    requires LogOk(cfg, s, log) && Enumerates(order, s.tracked.Keys)
    ensures LogOk(cfg, AfterUpdate(cfg, s, transforms, now), log + MoveMessages(cfg, s, order, transforms, now))
  {
    var t, longer := AfterUpdate(cfg, s, transforms, now), log + MoveMessages(cfg, s, order, transforms, now);
    hide PaceOk, InScene, MovesSince, FoldOk, AfterUpdate, MoveMessages;
    forall f: string
      ensures FoldOk(t, longer, f) && PaceOk(cfg, longer, f)
      ensures f in InScene(longer) ==> f in t.tracked
      ensures f in t.lastPose ==> f in t.tracked
    {
      assert FoldOk(s, log, f) && PaceOk(cfg, log, f);
      UpdateKeepsFold(cfg, s, log, transforms, order, now, f);
    }
  }

  /** A fetch leaves the last-pose and last-time maps alone and only adds tracked frames. */
  lemma FetchKeepsLog(cfg: SyncConfig, s: Store, t: Store, log: seq<Message>)
    requires LogOk(cfg, s, log)
    requires t.lastPose == s.lastPose && t.lastTime == s.lastTime && s.tracked.Keys <= t.tracked.Keys
    ensures LogOk(cfg, t, log)
  {
    hide PaceOk, InScene, MovesSince;
    forall f: string
      ensures FoldOk(t, log, f)
    {
      assert FoldOk(s, log, f);
    }
  }

  lemma StepKeepsLog(cfg: SyncConfig, sys: Sys, ev: Event)
    requires LogOk(cfg, sys.store, sys.committed)
    ensures LogOk(cfg, Next(cfg, sys, ev).store, Next(cfg, sys, ev).committed)
  {
    hide LogOk, AddMessages, AfterUpdate, MoveMessages, RemoveFrame, WorkerStep, ItemsOf, Enumerates;
    var s, log := sys.store, sys.committed;
    if Enabled(sys, ev) {
      match ev
      case AddPass(_, names, order, now) => AddKeepsLog(cfg, s, log, FramesToAdd(names, order), now);
      case UpdateCall(_, transforms, order, now) => UpdateKeepsLog(cfg, s, log, transforms, order, now);
      case RemoveCall(_, frame, now) => RemoveKeepsLog(cfg, s, log, frame, now);
      case FetchStep(tid, gltf) =>
        WorkerStepKeepsPoses(s, sys.workers[tid], gltf);
        FetchKeepsLog(cfg, s, WorkerStep(s, sys.workers[tid], gltf).0, log);
      case StartFetch(_, _) =>
      case Publish(_) =>
    }
  }

  /**
   In every reachable state, under any interleaving of lock sections: the last-pose and last-time
   maps are the fold of the committed log, inside the tracked set, and no frame is in the scene
   of the log without being tracked.
   */
  lemma {:induction false} LogFolds(cfg: SyncConfig, evs: seq<Event>)
    ensures LogOk(cfg, Exec(cfg, INIT, evs).store, Exec(cfg, INIT, evs).committed)
  {
    if evs == [] {
      EmptyLogOk(cfg);
    } else {
      var before := evs[..|evs| - 1];
      LogFolds(cfg, before);
      hide LogOk, Next;
      StepKeepsLog(cfg, Exec(cfg, INIT, before), evs[|evs| - 1]);
    }
  }

  lemma EmptyLogOk(cfg: SyncConfig)
    ensures LogOk(cfg, EMPTY_STORE, [])
  {
  }

  // ---- the rate bound ----

  /**
   Over any run, with a clock that may go backwards, a window of length T holds at most
   floor(T * rate) + 1 MOVE messages of a frame per stretch between its removals; so a run
   that never removes the frame keeps to floor(T * rate) + 1.
   */
  lemma RateBound(cfg: SyncConfig, evs: seq<Event>, f: string, from: real, length: real)
    requires cfg.rateHz > 0.0 && length >= 0.0
    ensures var log := Exec(cfg, INIT, evs).committed;
            && MovesIn(log, f, from, length) <= Stretches(Removals(log, f) + 1, WindowBound(cfg.rateHz, length))
            && (Removals(log, f) == 0 ==> MovesIn(log, f, from, length) <= (length * cfg.rateHz).Floor + 1)
  {
    hide Exec, FoldOk, RateOk, Removals, MovesIn, MinPeriod, Stretches, WindowBound, InScene, MovesSince;
    var log := Exec(cfg, INIT, evs).committed;
    LogFolds(cfg, evs);
    assert PaceOk(cfg, log, f);
    LogWindow(log, f, from, length, cfg.rateHz);
    StretchesNext(0, WindowBound(cfg.rateHz, length));
    assert WindowBound(cfg.rateHz, length) == (length * cfg.rateHz).Floor + 1 by { WindowBoundMeaning(cfg.rateHz, length); }
  }

  lemma WindowBoundMeaning(rateHz: real, length: real)
    ensures WindowBound(rateHz, length) == (length * rateHz).Floor + 1
  {
  }

  // ---- when an update sends a MOVE ----

  lemma {:induction false} FirstMatchIs(transforms: seq<Transform>, f: string, i: nat)
    requires FirstFor(transforms, f, i)
    ensures FirstMatch(transforms, f) == Some(transforms[i])
  {
    if i > 0 {
      assert transforms[0].child != f;
      assert forall j :: 0 <= j < i ==> transforms[1..][j] == transforms[j + 1];
      FirstMatchIs(transforms[1..], f, i - 1);
    }
  }

  lemma {:induction false} FirstMatchNone(transforms: seq<Transform>, f: string)
    requires forall j :: 0 <= j < |transforms| ==> transforms[j].child != f
    ensures FirstMatch(transforms, f).None?
  {
    if transforms != [] {
      FirstMatchNone(transforms[1..], f);
    }
  }

  lemma WithinIs(a: Vec3, b: Vec3, distance: real)
    ensures SqrtBelow(DistanceSq(a, b), distance) <==> Within(a, b, distance)
  {
    assert DistanceSq(a, b) == (b.x - a.x) * (b.x - a.x) + (b.y - a.y) * (b.y - a.y) + (b.z - a.z) * (b.z - a.z);
    hide DistanceSq;
  }

  lemma HalfCosineIs(a: Quat, b: Quat)
    ensures Alignment(a, b) == HalfCosine(a, b)
  {
    assert QuatDot(a, b) == a.w * b.w + a.x * b.x + a.y * b.y + a.z * b.z;
    hide QuatDot;
  }

  lemma DeadbandIs(cfg: SyncConfig, last: Pose, t: Transform)
    ensures InDeadband(cfg, last, PoseOf(t)) <==> BarelyMoved(cfg, last, t)
  {
    WithinIs(last.position, t.translation, cfg.minPosition);
    HalfCosineIs(last.orientation, t.rotation);
    hide DistanceSq, SqrtBelow, Within, Alignment, HalfCosine;
  }

  /** Whether a frame moves, from its own entries in the last-time and last-pose maps. */
  lemma DecideOnEntries(cfg: SyncConfig, s: Store, f: string, transforms: seq<Transform>, now: real, i: nat)
    requires FirstFor(transforms, f, i)
    ensures Decide(cfg, s, f, transforms, now)
         == if (f in s.lastTime ==> PeriodPassed(cfg, s.lastTime[f], now))
               && (f in s.lastPose ==> !BarelyMoved(cfg, s.lastPose[f], transforms[i]))
            then Some(transforms[i]) else None
  {
    FirstMatchIs(transforms, f, i);
    hide FirstMatch, InDeadband, BarelyMoved;
    if f in s.lastPose {
      DeadbandIs(cfg, s.lastPose[f], transforms[i]);
    }
  }

  lemma DecideIs(cfg: SyncConfig, s: Store, log: seq<Message>, f: string, transforms: seq<Transform>, now: real, i: nat)
    requires FoldOk(s, log, f) && FirstFor(transforms, f, i)
    ensures Decide(cfg, s, f, transforms, now)
         == if MoveDue(cfg, MovesSince(log, f), transforms[i], now) then Some(transforms[i]) else None
  {
    DecideOnEntries(cfg, s, f, transforms, now, i);
    hide Decide, PeriodPassed, BarelyMoved, MovesSince, FirstFor;
  }

  /**
   An update adds a MOVE of a frame to the log exactly when the frame is tracked, some transform
   is for it, and the first such one asks for a MOVE after those the log has; it is that transform's.
   */
  lemma UpdateSends(cfg: SyncConfig, s: Store, log: seq<Message>, transforms: seq<Transform>, order: seq<string>, now: real, f: string)
    requires LogOk(cfg, s, log) && Enumerates(order, s.tracked.Keys)
    ensures var longer := log + MoveMessages(cfg, s, order, transforms, now);
            && (forall i: nat :: f in s.tracked && FirstFor(transforms, f, i) ==> Answers(cfg, log, longer, f, transforms[i], now))
            && (f !in s.tracked || (forall j :: 0 <= j < |transforms| ==> transforms[j].child != f) ==>
                  MovesSince(longer, f) == MovesSince(log, f))
  {
    assert FoldOk(s, log, f) && PaceOk(cfg, log, f);
    MovesInLog(cfg, s, log, order, transforms, now, f);
    hide LogOk, PaceOk, FoldOk, MovesSince, MoveMessages, MoveDue, Decide, FirstMatch;
    if forall j :: 0 <= j < |transforms| ==> transforms[j].child != f {
      FirstMatchNone(transforms, f);
      NothingToDecide(cfg, s, f, transforms, now);
    }
    forall i: nat | f in s.tracked && FirstFor(transforms, f, i)
      ensures Answers(cfg, log, log + MoveMessages(cfg, s, order, transforms, now), f, transforms[i], now)
    {
      DecideIs(cfg, s, log, f, transforms, now, i);
      MoveMessageParent(s, f, transforms[i], now);
    }
    hide MoveMessage;
  }

  lemma NothingToDecide(cfg: SyncConfig, s: Store, f: string, transforms: seq<Transform>, now: real)
    requires FirstMatch(transforms, f).None?
    ensures Decide(cfg, s, f, transforms, now).None?
  {
  }

  lemma MoveMessageParent(s: Store, frame: string, t: Transform, now: real)
    ensures var m := MoveMessage(s, frame, t, now);
            m.Move? && m.frame == frame && m.stamp == now && m.parent == t.parent && m.pose == Pose(t.translation, t.rotation)
  {
  }

  /** In every reachable state, on the committed log alone. */
  lemma MoveSentIff(cfg: SyncConfig, evs: seq<Event>, tid: nat, transforms: seq<Transform>, order: seq<string>, now: real,
                    f: string, i: nat)
    requires Enabled(Exec(cfg, INIT, evs), UpdateCall(tid, transforms, order, now)) && FirstFor(transforms, f, i)
    ensures var before := Exec(cfg, INIT, evs);
            var after := Exec(cfg, INIT, evs + [UpdateCall(tid, transforms, order, now)]);
            if f in before.store.tracked then Answers(cfg, before.committed, after.committed, f, transforms[i], now)
            else MovesSince(after.committed, f) == MovesSince(before.committed, f)
  {
    var ev := UpdateCall(tid, transforms, order, now);
    var sys := Exec(cfg, INIT, evs);
    LogFolds(cfg, evs);
    ExecSnoc(cfg, INIT, evs, ev);
    UpdateSends(cfg, sys.store, sys.committed, transforms, order, now, f);
    hide Exec, LogOk, MovesSince, MoveMessages, Answers, AfterUpdate, Enumerates;
  }

  // ---- no drift ----

  lemma AnsweredNearby(cfg: SyncConfig, log: seq<Message>, after: seq<Message>, f: string, t: Transform, now: real)
    requires Answers(cfg, log, after, f, t, now) && AllMoves(MovesSince(log, f), f)
    requires var moves := MovesSince(log, f);
             moves != [] ==> PeriodPassed(cfg, moves[|moves| - 1].stamp, now)
    ensures var moves := MovesSince(after, f);
            && moves != [] && moves[|moves| - 1].Move?
            && var last := moves[|moves| - 1].pose;
               last == Pose(t.translation, t.rotation) || BarelyMoved(cfg, last, t)
  {
    hide MovesSince, PeriodPassed, BarelyMoved;
  }

  /**
   After an update that has a transform for a tracked frame, at least a period after the latest
   MOVE the log has of it, the pose published last for the frame (the last MOVE of the log since
   its last REMOVE) either equals that transform or differs from it by less than both
   thresholds, whatever small moves came before.
   */
  lemma NoDrift(cfg: SyncConfig, evs: seq<Event>, tid: nat, transforms: seq<Transform>, order: seq<string>, now: real,
                f: string, i: nat)
    requires Enabled(Exec(cfg, INIT, evs), UpdateCall(tid, transforms, order, now))
    requires f in Exec(cfg, INIT, evs).store.tracked && FirstFor(transforms, f, i)
    requires var moves := MovesSince(Exec(cfg, INIT, evs).committed, f);
             moves != [] ==> PeriodPassed(cfg, moves[|moves| - 1].stamp, now)
    ensures var after := Exec(cfg, INIT, evs + [UpdateCall(tid, transforms, order, now)]);
            var moves := MovesSince(after.committed, f);
            && moves != [] && moves[|moves| - 1].Move?
            && var last := moves[|moves| - 1].pose;
               last == Pose(transforms[i].translation, transforms[i].rotation) || BarelyMoved(cfg, last, transforms[i])
  {
    hide Exec, Enabled, MovesSince, PeriodPassed, BarelyMoved;
    MoveSentIff(cfg, evs, tid, transforms, order, now, f, i);
    MovesSinceAreMoves(Exec(cfg, INIT, evs).committed, f);
    var log, after := Exec(cfg, INIT, evs).committed, Exec(cfg, INIT, evs + [UpdateCall(tid, transforms, order, now)]).committed;
    AnsweredNearby(cfg, log, after, f, transforms[i], now);
    hide Answers, FirstFor;
  }

  // ---- one MOVE per frame and call ----

  /** The messages of an update: one for each moving frame, from its first matching transform, no frame twice. */
  lemma {:induction false} UpdateMessagesExact(cfg: SyncConfig, s: Store, order: seq<string>, transforms: seq<Transform>, now: real)
    requires Distinct(order)
    ensures var ms := MoveMessages(cfg, s, order, transforms, now);
            && (forall m :: m in ms <==> exists f :: f in order && Moves(cfg, s, f, transforms, now)
                                                    && m == MoveMessage(s, f, FirstMatch(transforms, f).value, now))
            && (forall i, j :: 0 <= i < j < |ms| ==> ms[i].frame != ms[j].frame)
            && (forall m :: m in ms ==> m.frame in order)
  {
    hide MoveMessage;
    forall f | Moves(cfg, s, f, transforms, now)
      ensures Decide(cfg, s, f, transforms, now) == FirstMatch(transforms, f)
    {
    }
    hide Decide;
    if order != [] {
      var k := |order| - 1;
      var g, earlier := order[k], order[..k];
      UpdateMessagesExact(cfg, s, earlier, transforms, now);
      assert order == earlier + [g] && g !in earlier;
      if Moves(cfg, s, g, transforms, now) {
        MoveMessageShape(s, g, Decide(cfg, s, g, transforms, now).value, now);
      } else {
        assert MoveMessages(cfg, s, order, transforms, now) == MoveMessages(cfg, s, earlier, transforms, now);
      }
    }
  }

  // ---- the scene of the log against the tracked set ----

  /**
   Directly after an ADD pass the scene of the log and the tracked set agree exactly when the
   pass covered what was missing: always without a name list, and with one exactly when it lists
   every tracked frame that was not in the scene yet.
   */
  lemma AgreementAfterAdd(cfg: SyncConfig, evs: seq<Event>, tid: nat, names: Option<seq<string>>, order: seq<string>, now: real)
    requires Enabled(Exec(cfg, INIT, evs), AddPass(tid, names, order, now))
    ensures var before, after := Exec(cfg, INIT, evs), Exec(cfg, INIT, evs + [AddPass(tid, names, order, now)]);
            && InScene(after.committed) <= after.store.tracked.Keys == before.store.tracked.Keys
            && (names.None? ==> InScene(after.committed) == after.store.tracked.Keys)
            && (names.Some? ==>
                  (InScene(after.committed) == after.store.tracked.Keys <==>
                   forall f :: f in before.store.tracked && f !in InScene(before.committed) ==> f in names.value))
  {
    var ev := AddPass(tid, names, order, now);
    var sys, after := Exec(cfg, INIT, evs), Exec(cfg, INIT, evs + [ev]);
    var s, frames := sys.store, FramesToAdd(names, order);
    LogFolds(cfg, evs);
    AddKeepsLog(cfg, s, sys.committed, frames, now);
    ExecSnoc(cfg, INIT, evs, ev);
    hide Exec, AddMessages, FoldOk, PaceOk;
    assert InScene(after.committed) == InScene(sys.committed) + set f | f in frames && f in s.tracked;
    hide InScene, Next;
    assert after.store == s;
    forall f
      ensures f in InScene(after.committed) <==> f in InScene(sys.committed) || (f in frames && f in s.tracked)
    {
    }
    if names.Some? && InScene(after.committed) == s.tracked.Keys {
      forall f | f in s.tracked && f !in InScene(sys.committed)
        ensures f in names.value
      {
        assert f in s.tracked.Keys;
      }
    }
  }

  /**
   The names the TF callback queues are first segments, without a slash, while every tracked
   frame contains one: in every reachable state an ADD pass over such names publishes nothing.
   */
  lemma NameScopedPassIsSilent(cfg: SyncConfig, evs: seq<Event>, names: seq<string>, now: real)
    requires forall i :: 0 <= i < |names| ==> '/' !in names[i]
    ensures AddMessages(cfg, Exec(cfg, INIT, evs).store, names, now) == []
  {
    NeverExcluded(cfg, evs);
    hide Exec;
    NothingTracked(cfg, Exec(cfg, INIT, evs).store, names, now);
  }

  /**
   Mailbox and scene together: if every callback queues slash-free names, then whatever batch of
   names the sync thread takes, the ADD pass for it publishes nothing in any reachable state of
   the scene. Newly discovered objects enter the scene only through a pass without a name list.
   */
  lemma DiscoveredBatchAddsNothing(cfg: SyncConfig, evs: seq<Event>, mail: seq<SyncMailbox.BoxEvent>, i: nat, now: real)
    requires forall j, n :: 0 <= j < |mail| && mail[j].Queue? && n in mail[j].names ==> '/' !in n
    requires i < |SyncMailbox.Run(cfg.intervalSec, mail).taken| && SyncMailbox.Run(cfg.intervalSec, mail).taken[i].Some?
    ensures AddMessages(cfg, Exec(cfg, INIT, evs).store, SyncMailbox.Run(cfg.intervalSec, mail).taken[i].value, now) == []
  {
    var names := SyncMailbox.Run(cfg.intervalSec, mail).taken[i].value;
    forall k | 0 <= k < |names|
      ensures '/' !in names[k]
    {
      assert names[k] in SyncMailbox.NamesOf(SyncMailbox.Run(cfg.intervalSec, mail).taken[i]);
      SyncMailbox.BatchWasQueued(cfg.intervalSec, mail, i, names[k]);
    }
    hide Exec, AddMessages;
    NameScopedPassIsSilent(cfg, evs, names, now);
  }

  lemma {:induction false} NothingTracked(cfg: SyncConfig, s: Store, names: seq<string>, now: real)
    requires forall i :: 0 <= i < |names| ==> names[i] !in s.tracked
    ensures AddMessages(cfg, s, names, now) == []
  {
    if names != [] {
      NothingTracked(cfg, s, names[..|names| - 1], now);
    }
  }
}
