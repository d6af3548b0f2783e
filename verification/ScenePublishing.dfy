/**
 Messages are published after the lock is released: what the topic may end up showing, in whatever
 order the threads get to publish what they have committed.
 */
module ScenePublishing {
  import opened Wrappers
  import opened SceneFetch
  import opened SceneStore
  import opened SceneLog
  import opened SceneRuns
  import opened SceneAgreement

  // ---- what one step does to the outboxes ----

  lemma CommitOutbox(sys: Sys, tid: nat, store: Store, messages: seq<Message>)
    ensures var next := Commit(sys, tid, store, messages);
            && next.store == store && next.published == sys.published
            && Outbox(next, tid) == Outbox(sys, tid) + messages
            && forall t: nat :: t != tid ==> Outbox(next, t) == Outbox(sys, t)
  {
  }

  lemma PublishOutbox(cfg: SyncConfig, sys: Sys, tid: nat)
    requires Outbox(sys, tid) != []
    ensures var next := Next(cfg, sys, Publish(tid));
            && next.store == sys.store && next.published == sys.published + [Outbox(sys, tid)[0]]
            && Outbox(next, tid) == Outbox(sys, tid)[1..]
            && forall t: nat :: t != tid ==> Outbox(next, t) == Outbox(sys, t)
  {
  }

  lemma PublishNothing(cfg: SyncConfig, sys: Sys, tid: nat)
    requires Outbox(sys, tid) == []
    ensures Next(cfg, sys, Publish(tid)) == sys
  {
  }

  // ---- what the last message about a frame does ----

  /** What a list of messages leaves of a frame: shown by an ADD, hidden by a REMOVE, or as it was. */
  datatype Effect = Shown | Hidden | Untouched

  function LastEffect(log: seq<Message>, f: string): Effect {
    if log == [] then Untouched
    else
      var rest := LastEffect(log[1..], f);
      if rest != Untouched then rest
      else if log[0].frame != f || log[0].Move? then Untouched
      else if log[0].Add? then Shown
      else Hidden
  }

  /** Sending messages changes the scene by their effect. */
  lemma {:induction false} InSceneAfter(log: seq<Message>, more: seq<Message>, f: string)
    ensures f in InScene(log + more) <==>
            LastEffect(more, f) == Shown || (LastEffect(more, f) == Untouched && f in InScene(log))
    decreases |more|
  {
    hide InScene;
    if more == [] {
      assert log + more == log;
    } else {
      InSceneAfter(log + [more[0]], more[1..], f);
      assert log + more == (log + [more[0]]) + more[1..];
      LogSnoc(log, more[0], f);
    }
  }

  lemma {:induction false} EffectSnoc(log: seq<Message>, m: Message, f: string)
    ensures LastEffect(log + [m], f) ==
              if m.frame != f || m.Move? then LastEffect(log, f) else if m.Add? then Shown else Hidden
  {
    if log == [] {
      assert log + [m] == [m] && [m][1..] == [];
    } else {
      EffectSnoc(log[1..], m, f);
      assert (log + [m])[1..] == log[1..] + [m];
    }
  }

  // ---- every publication order ----

  ghost predicate AllPublished(sys: Sys) {
    forall t: nat :: Outbox(sys, t) == []
  }

  /** A publication order for what is outstanding: only publications, until nothing is left. */
  ghost predicate Flushes(cfg: SyncConfig, sys: Sys, order: seq<Event>) {
    (forall i :: 0 <= i < |order| ==> order[i].Publish?) && AllPublished(Exec(cfg, sys, order))
  }

  ghost predicate ShownAfter(cfg: SyncConfig, sys: Sys, order: seq<Event>, f: string) {
    f in InScene(Exec(cfg, sys, order).published)
  }

  ghost predicate SomeShown(sys: Sys, f: string) {
    exists t: nat :: LastEffect(Outbox(sys, t), f) == Shown
  }

  ghost predicate NoneTouched(sys: Sys, f: string) {
    forall t: nat :: LastEffect(Outbox(sys, t), f) == Untouched
  }

  /** Some outbox ends, for f, in an ADD; or none mentions f and the topic shows it already. */
  ghost predicate MayShow(sys: Sys, f: string) {
    SomeShown(sys, f) || (NoneTouched(sys, f) && f in InScene(sys.published))
  }

  /** One publication cannot make a frame showable that was not. */
  lemma PublishKeepsHidden(cfg: SyncConfig, sys: Sys, tid: nat, f: string)
    requires MayShow(Next(cfg, sys, Publish(tid)), f)
    ensures MayShow(sys, f)
  {
    var next := Next(cfg, sys, Publish(tid));
    if Outbox(sys, tid) == [] {
      PublishNothing(cfg, sys, tid);
    } else {
      var box := Outbox(sys, tid);
      PublishOutbox(cfg, sys, tid);
      LogSnoc(sys.published, box[0], f);
      hide Next, Outbox, InScene;
      if SomeShown(next, f) {
        var t: nat :| LastEffect(Outbox(next, t), f) == Shown;
        assert LastEffect(Outbox(sys, t), f) == Shown;
      } else {
        forall t: nat
          ensures t != tid ==> LastEffect(Outbox(sys, t), f) == Untouched
        {
          assert LastEffect(Outbox(next, t), f) == Untouched;
        }
        assert LastEffect(Outbox(next, tid), f) == Untouched;
        if box[0].frame == f && box[0].Add? {
          assert LastEffect(Outbox(sys, tid), f) == Shown;
        }
      }
    }
  }

  lemma {:induction false} FlushKeepsHidden(cfg: SyncConfig, sys: Sys, order: seq<Event>, f: string)
    requires (forall i :: 0 <= i < |order| ==> order[i].Publish?) && MayShow(Exec(cfg, sys, order), f)
    ensures MayShow(sys, f)
  {
    if order != [] {
      var k := |order| - 1;
      hide MayShow;
      PublishKeepsHidden(cfg, Exec(cfg, sys, order[..k]), order[k].tid, f);
      FlushKeepsHidden(cfg, sys, order[..k], f);
    }
  }

  lemma QuietMayShow(sys: Sys, f: string)
    requires AllPublished(sys)
    ensures MayShow(sys, f) <==> f in InScene(sys.published)
  {
    hide Outbox, InScene;
    forall t: nat
      ensures LastEffect(Outbox(sys, t), f) == Untouched
    {
      assert Outbox(sys, t) == [];
    }
  }

  /** One thread publishes all it has. */
  lemma {:induction false} FlushThread(cfg: SyncConfig, sys: Sys, t: nat) returns (order: seq<Event>)
    ensures forall i :: 0 <= i < |order| ==> order[i].Publish?
    ensures var after := Exec(cfg, sys, order);
            && after.published == sys.published + Outbox(sys, t)
            && Outbox(after, t) == [] && (forall u: nat :: u != t ==> Outbox(after, u) == Outbox(sys, u))
    decreases |Outbox(sys, t)|
  {
    var box := Outbox(sys, t);
    if box == [] {
      order := [];
      assert sys.published + box == sys.published;
    } else {
      PublishOutbox(cfg, sys, t);
      var next := Next(cfg, sys, Publish(t));
      var rest := FlushThread(cfg, next, t);
      order := [Publish(t)] + rest;
      ExecConcat(cfg, sys, [Publish(t)], rest);
      ExecSnoc(cfg, sys, [], Publish(t));
      assert [] + [Publish(t)] == [Publish(t)];
      hide Exec, Next, Outbox;
      assert (sys.published + [box[0]]) + box[1..] == sys.published + box;
    }
  }

  /** All the threads of a set publish all they have, one after the other; the others wait. */
  lemma {:induction false} FlushSet(cfg: SyncConfig, sys: Sys, threads: set<nat>) returns (order: seq<Event>)
    ensures forall i :: 0 <= i < |order| ==> order[i].Publish?
    ensures var after := Exec(cfg, sys, order);
            && (forall u: nat :: u in threads ==> Outbox(after, u) == [])
            && (forall u: nat :: u !in threads ==> Outbox(after, u) == Outbox(sys, u))
            && (forall f :: (forall u: nat :: u in threads ==> LastEffect(Outbox(sys, u), f) == Untouched) ==>
                              (f in InScene(after.published) <==> f in InScene(sys.published)))
    decreases |threads|
  {
    if threads == {} {
      order := [];
    } else {
      var t :| t in threads;
      var first := FlushThread(cfg, sys, t);
      var mid := Exec(cfg, sys, first);
      var rest := FlushSet(cfg, mid, threads - {t});
      order := first + rest;
      ExecConcat(cfg, sys, first, rest);
      hide Exec, Outbox, InScene;
      var after := Exec(cfg, sys, order);
      forall f | forall u: nat :: u in threads ==> LastEffect(Outbox(sys, u), f) == Untouched
        ensures f in InScene(after.published) <==> f in InScene(sys.published)
      {
        InSceneAfter(sys.published, Outbox(sys, t), f);
      }
    }
  }

  lemma OutsideOutboxes(sys: Sys)
    ensures forall u: nat :: u !in sys.outbox.Keys ==> Outbox(sys, u) == []
  {
  }

  /** If f may be shown, some order shows it: the thread that ends in an ADD goes last. */
  lemma ShowingOrder(cfg: SyncConfig, sys: Sys, f: string) returns (order: seq<Event>)
    requires MayShow(sys, f)
    ensures Flushes(cfg, sys, order) && ShownAfter(cfg, sys, order, f)
  {
    OutsideOutboxes(sys);
    if SomeShown(sys, f) {
      var t: nat :| LastEffect(Outbox(sys, t), f) == Shown;
      var others := FlushSet(cfg, sys, sys.outbox.Keys - {t});
      var mid := Exec(cfg, sys, others);
      var last := FlushThread(cfg, mid, t);
      order := others + last;
      ExecConcat(cfg, sys, others, last);
      hide Exec, Outbox, InScene;
      InSceneAfter(mid.published, Outbox(mid, t), f);
    } else {
      order := FlushSet(cfg, sys, sys.outbox.Keys);
      hide Exec, Outbox, InScene;
    }
  }

  /**
   Some publication order of the outstanding messages ends with f shown exactly when some outbox
   ends, for f, in an ADD, or none mentions f and it is shown already.
   */
  lemma ShowableIff(cfg: SyncConfig, sys: Sys, f: string)
    ensures (exists order :: Flushes(cfg, sys, order) && ShownAfter(cfg, sys, order, f)) <==> MayShow(sys, f)
  {
    if order :| Flushes(cfg, sys, order) && ShownAfter(cfg, sys, order, f) {
      QuietMayShow(Exec(cfg, sys, order), f);
      hide MayShow, AllPublished, Exec;
      FlushKeepsHidden(cfg, sys, order, f);
    }
    if MayShow(sys, f) {
      var order := ShowingOrder(cfg, sys, f);
    }
  }

  /** In the end the topic shows no frame that is not tracked. */
  ghost predicate Agrees(cfg: SyncConfig, sys: Sys, order: seq<Event>) {
    InScene(Exec(cfg, sys, order).published) <= sys.store.tracked.Keys
  }

  /**
   The exact condition for the agreement of topic and tracked set: every publication order ends
   in agreement exactly when for every frame that is not tracked no outbox ends in an ADD, and a
   frame the topic shows already is still mentioned by an outbox.
   */
  lemma AgreementIff(cfg: SyncConfig, sys: Sys)
    ensures (forall order :: Flushes(cfg, sys, order) ==> Agrees(cfg, sys, order))
       <==> (forall f :: f !in sys.store.tracked ==> !MayShow(sys, f))
  {
    hide MayShow, Flushes, Exec, InScene;
    if f :| f !in sys.store.tracked && MayShow(sys, f) {
      var order := ShowingOrder(cfg, sys, f);
      assert f in InScene(Exec(cfg, sys, order).published);
      assert !Agrees(cfg, sys, order);
    }
    if forall f :: f !in sys.store.tracked ==> !MayShow(sys, f) {
      forall order | Flushes(cfg, sys, order)
        ensures Agrees(cfg, sys, order)
      {
        forall f | f in InScene(Exec(cfg, sys, order).published)
          ensures f in sys.store.tracked
        {
          assert ShownAfter(cfg, sys, order, f);
          ShowableIff(cfg, sys, f);
        }
      }
    }
  }

  /**
   The guard of a removal: after it, every publication order ends with the frame hidden exactly
   when, before it, no other thread's outbox ended in an ADD of the frame.
   */
  lemma RemovalGuard(cfg: SyncConfig, sys: Sys, tid: nat, f: string, now: real)
    ensures var after := Next(cfg, sys, RemoveCall(tid, f, now));
            (forall order :: Flushes(cfg, after, order) ==> !ShownAfter(cfg, after, order, f)) <==>
            (forall t: nat :: t != tid ==> LastEffect(Outbox(sys, t), f) != Shown)
  {
    var after := Next(cfg, sys, RemoveCall(tid, f, now));
    var m := Remove(f, now);
    assert after == Commit(sys, tid, RemoveFrame(sys.store, f), [m]);
    CommitOutbox(sys, tid, RemoveFrame(sys.store, f), [m]);
    EffectSnoc(Outbox(sys, tid), m, f);
    ShowableIff(cfg, after, f);
    hide Next, Commit, Outbox, Flushes, ShownAfter, InScene;
    assert LastEffect(Outbox(after, tid), f) == Hidden;
    assert MayShow(after, f) <==> SomeShown(after, f);
    if t: nat :| t != tid && LastEffect(Outbox(sys, t), f) == Shown {
      assert LastEffect(Outbox(after, t), f) == Shown;
    }
    if t: nat :| LastEffect(Outbox(after, t), f) == Shown {
      assert t != tid && LastEffect(Outbox(sys, t), f) == Shown;
    }
  }

  // ---- calls that do not overlap, and a race ----

  predicate Commits(ev: Event) {
    ev.AddPass? || ev.RemoveCall? || ev.UpdateCall?
  }

  /** Calls do not overlap: a call takes the lock only when all earlier messages are out. */
  ghost predicate Serial(cfg: SyncConfig, evs: seq<Event>) {
    forall n :: 0 <= n < |evs| && Commits(evs[n]) ==> AllPublished(Exec(cfg, INIT, evs[..n]))
  }

  /** What is out, followed by the one outbox still in use, is what was committed. */
  ghost predicate OneOutbox(sys: Sys, t: nat) {
    && sys.committed == sys.published + Outbox(sys, t)
    && forall u: nat :: u != t ==> Outbox(sys, u) == []
  }

  lemma {:induction false} SerialOutbox(cfg: SyncConfig, evs: seq<Event>) returns (t: nat)
    requires Serial(cfg, evs)
    ensures OneOutbox(Exec(cfg, INIT, evs), t)
  {
    if evs == [] {
      t := 0;
    } else {
      var k := |evs| - 1;
      var before, ev := evs[..k], evs[k];
      var sys, next := Exec(cfg, INIT, before), Exec(cfg, INIT, evs);
      assert Serial(cfg, before) by {
        assert forall n :: 0 <= n < k ==> before[..n] == evs[..n] && before[n] == evs[n];
      }
      t := SerialOutbox(cfg, before);
      hide Exec, Next, OneOutbox;
      t := StepOutbox(cfg, sys, ev, t);
    }
  }

  lemma StepOutbox(cfg: SyncConfig, sys: Sys, ev: Event, t: nat) returns (t': nat)
    requires OneOutbox(sys, t) && (Commits(ev) ==> AllPublished(sys))
    ensures OneOutbox(Next(cfg, sys, ev), t')
  {
    hide AddMessages, MoveMessages, AfterUpdate, RemoveFrame, WorkerStep, ItemsOf, Enumerates;
    t' := t;
    if Enabled(sys, ev) {
      if Commits(ev) {
        t' := ev.tid;
        assert Outbox(sys, t) == [] && Outbox(sys, t') == [];
      } else if ev.Publish? {
        assert ev.tid == t;
        var box := Outbox(sys, t);
        assert box == [box[0]] + box[1..];
        assert sys.committed == (sys.published + [box[0]]) + box[1..];
      }
      var next := Next(cfg, sys, ev);
      forall u: nat | u != t'
        ensures Outbox(next, u) == []
      {
        assert u != t ==> Outbox(sys, u) == [];
      }
    }
  }

  /**
   With each call as one step, whenever nothing is left to publish the topic has seen exactly
   the committed log, so the scene it describes is inside the tracked set.
   */
  lemma PublishedAgreement(cfg: SyncConfig, evs: seq<Event>)
    requires Serial(cfg, evs) && AllPublished(Exec(cfg, INIT, evs))
    ensures var sys := Exec(cfg, INIT, evs);
            sys.published == sys.committed && InScene(sys.published) <= sys.store.tracked.Keys
  {
    hide Exec, InScene, FoldOk, PaceOk, Serial;
    var t := SerialOutbox(cfg, evs);
    LogFolds(cfg, evs);
    assert Outbox(Exec(cfg, INIT, evs), t) == [];
  }

  /**
   Calls that do overlap break the agreement: from every reachable state with nothing left to
   publish and a tracked frame, an ADD pass whose message is overtaken by a removal leaves a
   topic that shows the frame although it is no longer tracked.
   */
  lemma OverlapBreaksAgreement(cfg: SyncConfig, evs: seq<Event>, f: string, now: real)
    requires AllPublished(Exec(cfg, INIT, evs)) && f in Exec(cfg, INIT, evs).store.tracked
    ensures var race := [AddPass(1, Some([f]), [], now), RemoveCall(2, f, now), Publish(2), Publish(1)];
            var after := Exec(cfg, INIT, evs + race);
            AllPublished(after) && f in InScene(after.published) && f !in after.store.tracked
  {
    var sys := Exec(cfg, INIT, evs);
    var a, b, c, d := AddPass(1, Some([f]), [], now), RemoveCall(2, f, now), Publish(2), Publish(1);
    ExecSnoc(cfg, INIT, evs, a);
    ExecSnoc(cfg, INIT, evs + [a], b);
    ExecSnoc(cfg, INIT, evs + [a] + [b], c);
    ExecSnoc(cfg, INIT, evs + [a] + [b] + [c], d);
    assert evs + [a] + [b] + [c] + [d] == evs + [a, b, c, d];
    hide Exec;
    AddOne(cfg, sys.store, f, now);
    hide AddMessages, AddMessage;
    assert Outbox(sys, 1) == [] && Outbox(sys, 2) == [];
    RaceOrder(cfg, sys, f, now);
  }

  lemma AddOne(cfg: SyncConfig, s: Store, f: string, now: real)
    requires f in s.tracked
    ensures AddMessages(cfg, s, [f], now) == [AddMessage(cfg, s, f, now)]
  {
  }

  lemma RaceOrder(cfg: SyncConfig, sys: Sys, f: string, now: real)
    requires AllPublished(sys) && f in sys.store.tracked
    requires AddMessages(cfg, sys.store, [f], now) == [AddMessage(cfg, sys.store, f, now)]
    ensures var s1 := Next(cfg, sys, AddPass(1, Some([f]), [], now));
            var s2 := Next(cfg, s1, RemoveCall(2, f, now));
            var s3 := Next(cfg, s2, Publish(2));
            var s4 := Next(cfg, s3, Publish(1));
            AllPublished(s4) && f in InScene(s4.published) && f !in s4.store.tracked
  {
    var add, remove := AddMessage(cfg, sys.store, f, now), Remove(f, now);
    AddMessageShape(cfg, sys.store, f, now);
    hide AddMessages, MoveMessages, AfterUpdate, WorkerStep, ItemsOf, Enumerates, InScene, AddMessage;
    assert Outbox(sys, 1) == [] && Outbox(sys, 2) == [];
    var s1 := Next(cfg, sys, AddPass(1, Some([f]), [], now));
    assert s1 == Commit(sys, 1, sys.store, [add]);
    var s2 := Next(cfg, s1, RemoveCall(2, f, now));
    assert s2 == Commit(s1, 2, RemoveFrame(s1.store, f), [remove]);
    CommitOutbox(sys, 1, sys.store, [add]);
    CommitOutbox(s1, 2, RemoveFrame(s1.store, f), [remove]);
    hide Commit;
    PublishOutbox(cfg, s2, 2);
    var s3 := Next(cfg, s2, Publish(2));
    PublishOutbox(cfg, s3, 1);
    var s4 := Next(cfg, s3, Publish(1));
    hide Next, Outbox;
    LogSnoc(sys.published + [remove], add, f);
    assert f in InScene(s4.published);
    forall t: nat
      ensures Outbox(s4, t) == []
    {
      assert Outbox(sys, t) == [];
    }
  }
}
