/**
 The one-slot mailbox between the TF callback and the background sync thread.

 A batch is None for a full pass, or the list of object names to fetch.
 */
module SyncMailbox {
  import opened Wrappers

  datatype Box = Box(pending: Option<seq<string>>, wake: bool, shutdown: bool)

  /** Freshly constructed: no names, but the wake-up flag is set, which asks for a full pass. */
  const FRESH := Box(None, true, false)

  datatype BoxEvent =
    | Queue(names: seq<string>)      // the TF callback discovered these object names
    | Take(fetchOk: bool)            // the sync thread takes the slot, then its fetch succeeds or not
    | Shutdown

  /** The names a callback discovers, behind those already waiting. */
  function QueueNames(b: Box, names: seq<string>): Box {
    if names == [] then b
    else Box(Some((if b.pending.Some? then b.pending.value else []) + names), true, b.shutdown)
  }

  function TakeBatch(b: Box): Box {
    Box(None, false, b.shutdown)
  }

  /** The thread wakes for the flag, or for the timer when an interval is configured; after shutdown it leaves. */
  predicate CanTake(b: Box, intervalSec: real) {
    !b.shutdown && (b.wake || intervalSec > 0.0)
  }

  /** The mailbox and its history: every batch taken, those whose fetch succeeded, and every name queued. */
  datatype Mail = Mail(box: Box, taken: seq<Option<seq<string>>>, fetched: seq<Option<seq<string>>>, queued: seq<string>)

  const NO_MAIL := Mail(FRESH, [], [], [])

  function Step(intervalSec: real, m: Mail, ev: BoxEvent): Mail {
    match ev
    case Queue(names) => m.(box := QueueNames(m.box, names), queued := m.queued + names)
    case Take(ok) =>
      if !CanTake(m.box, intervalSec) then m
      else Mail(TakeBatch(m.box), m.taken + [m.box.pending],
                if ok then m.fetched + [m.box.pending] else m.fetched, m.queued)
    case Shutdown => m.(box := m.box.(shutdown := true))
  }

  function Run(intervalSec: real, evs: seq<BoxEvent>): Mail {
    if evs == [] then NO_MAIL else Step(intervalSec, Run(intervalSec, evs[..|evs| - 1]), evs[|evs| - 1])
  }

  function NamesOf(batch: Option<seq<string>>): seq<string> {
    if batch.Some? then batch.value else []
  }

  function Flatten(batches: seq<Option<seq<string>>>): seq<string> {
    if batches == [] then [] else Flatten(batches[..|batches| - 1]) + NamesOf(batches[|batches| - 1])
  }

  /**
   Nothing is lost or reordered on the way to the sync thread: the batches taken so far followed
   by the pending names are, in order, all names ever queued, and pending names always have the
   wake-up flag set.
   */
  lemma {:induction false} MailConserved(intervalSec: real, evs: seq<BoxEvent>)
    ensures var m := Run(intervalSec, evs);
            && Flatten(m.taken) + NamesOf(m.box.pending) == m.queued
            && (m.box.pending.Some? ==> m.box.wake && m.box.pending.value != [])
  {
    if evs != [] {
      var k := |evs| - 1;
      MailConserved(intervalSec, evs[..k]);
      StepConserves(intervalSec, Run(intervalSec, evs[..k]), evs[k]);
    }
  }

  lemma StepConserves(intervalSec: real, m: Mail, ev: BoxEvent)
    requires Flatten(m.taken) + NamesOf(m.box.pending) == m.queued
    requires m.box.pending.Some? ==> m.box.wake && m.box.pending.value != []
    ensures var n := Step(intervalSec, m, ev);
            && Flatten(n.taken) + NamesOf(n.box.pending) == n.queued
            && (n.box.pending.Some? ==> n.box.wake && n.box.pending.value != [])
  {
  }

  // ---- full passes ----

  predicate QueuesNames(ev: BoxEvent) {
    ev.Queue? && ev.names != []
  }

  /** Nothing has happened yet: no name queued, no take, no shutdown. */
  ghost predicate Quiet(evs: seq<BoxEvent>) {
    forall j :: 0 <= j < |evs| ==> !QueuesNames(evs[j]) && !evs[j].Take? && !evs[j].Shutdown?
  }

  /** The box asks for a full pass exactly while nothing has happened. */
  lemma {:induction false} FreshIffQuiet(intervalSec: real, evs: seq<BoxEvent>)
    ensures var b := Run(intervalSec, evs).box;
            b.wake && b.pending.None? && !b.shutdown <==> Quiet(evs)
  {
    if evs != [] {
      var k := |evs| - 1;
      FreshIffQuiet(intervalSec, evs[..k]);
      QuietNext(evs);
      hide Quiet;
    }
  }

  lemma QuietNext(evs: seq<BoxEvent>)
    requires evs != []
    ensures var k := |evs| - 1;
            Quiet(evs) <==> Quiet(evs[..k]) && !QueuesNames(evs[k]) && !evs[k].Take? && !evs[k].Shutdown?
  {
  }

  function FullPasses(batches: seq<Option<seq<string>>>): nat {
    if batches == [] then 0 else FullPasses(batches[..|batches| - 1]) + if batches[|batches| - 1].None? then 1 else 0
  }

  lemma FullPassesSnoc(batches: seq<Option<seq<string>>>, batch: Option<seq<string>>)
    ensures FullPasses(batches + [batch]) == FullPasses(batches) + if batch.None? then 1 else 0
  {
  }

  /** The thread gets to the slot at position i before anything else happens. */
  ghost predicate FirstTake(evs: seq<BoxEvent>, i: nat) {
    i < |evs| && evs[i].Take? && Quiet(evs[..i])
  }

  /**
   Without a timer the sync thread makes at most one full pass in its whole life, and it makes it
   exactly when it gets to the slot before the first name is queued and before shutdown: a
   pending full pass is narrowed to a name list by the first discovery.
   */
  lemma {:induction false} FullPassOnlyFirst(intervalSec: real, evs: seq<BoxEvent>)
    requires intervalSec <= 0.0
    ensures FullPasses(Run(intervalSec, evs).taken) <= 1
    ensures FullPasses(Run(intervalSec, evs).taken) == 1 <==> exists i :: FirstTake(evs, i)
  {
    if evs != [] {
      var k := |evs| - 1;
      var before, ev := evs[..k], evs[k];
      FullPassOnlyFirst(intervalSec, before);
      FreshIffQuiet(intervalSec, before);
      var m := Run(intervalSec, before);
      FirstTakeNext(evs);
      FullPassesSnoc(m.taken, m.box.pending);
      if FirstTake(evs, k) {
        QuietHasNoTake(before);
      }
      hide FullPasses, FirstTake, Quiet;
      assert Run(intervalSec, evs) == Step(intervalSec, m, ev);
    }
  }

  lemma QuietHasNoTake(evs: seq<BoxEvent>)
    requires Quiet(evs)
    ensures !exists i :: FirstTake(evs, i)
  {
  }

  lemma FirstTakeNext(evs: seq<BoxEvent>)
    requires evs != []
    ensures var k := |evs| - 1;
            && ((exists i :: FirstTake(evs, i)) <==> (exists i :: FirstTake(evs[..k], i)) || FirstTake(evs, k))
            && (FirstTake(evs, k) <==> evs[k].Take? && Quiet(evs[..k]))
  {
    var k := |evs| - 1;
    forall i: nat | i < k
      ensures FirstTake(evs, i) <==> FirstTake(evs[..k], i)
    {
      assert evs[..k][..i] == evs[..i];
    }
    if i :| FirstTake(evs[..k], i) {
      assert FirstTake(evs, i);
    }
  }

  // ---- full passes with a timer ----

  /** The thread really takes the slot at position k. */
  ghost predicate TakesAt(intervalSec: real, evs: seq<BoxEvent>, k: nat) {
    k < |evs| && evs[k].Take? && CanTake(Run(intervalSec, evs[..k]).box, intervalSec)
  }

  /** Names queued at position j have not been taken yet. */
  ghost predicate Waiting(intervalSec: real, evs: seq<BoxEvent>, j: nat) {
    j < |evs| && QueuesNames(evs[j]) && forall k: nat :: j < k < |evs| ==> !TakesAt(intervalSec, evs, k)
  }

  lemma WaitingNext(intervalSec: real, evs: seq<BoxEvent>, j: nat)
    requires evs != []
    ensures var k := |evs| - 1;
            Waiting(intervalSec, evs, j) <==>
            (j == k && QueuesNames(evs[k])) || (Waiting(intervalSec, evs[..k], j) && !TakesAt(intervalSec, evs, k))
  {
    var k := |evs| - 1;
    forall i: nat | i < k
      ensures TakesAt(intervalSec, evs, i) <==> TakesAt(intervalSec, evs[..k], i)
    {
      assert evs[..k][..i] == evs[..i];
    }
  }

  lemma {:induction false} PendingIffWaiting(intervalSec: real, evs: seq<BoxEvent>)
    ensures Run(intervalSec, evs).box.pending.Some? <==> exists j :: Waiting(intervalSec, evs, j)
  {
    if evs != [] {
      var k := |evs| - 1;
      var before := evs[..k];
      PendingIffWaiting(intervalSec, before);
      WaitingNext(intervalSec, evs, k);
      assert !Waiting(intervalSec, before, k);
      forall j: nat
        ensures Waiting(intervalSec, evs, j) <==>
                (j == k && QueuesNames(evs[k])) || (Waiting(intervalSec, before, j) && !TakesAt(intervalSec, evs, k))
      {
        WaitingNext(intervalSec, evs, j);
      }
      assert TakesAt(intervalSec, evs, k) <==> evs[k].Take? && CanTake(Run(intervalSec, before).box, intervalSec);
      hide Waiting, TakesAt, Run;
      assert Run(intervalSec, evs) == Step(intervalSec, Run(intervalSec, before), evs[k]) by { RunNext(intervalSec, evs); }
    }
  }

  lemma RunNext(intervalSec: real, evs: seq<BoxEvent>)
    requires evs != []
    ensures Run(intervalSec, evs) == Step(intervalSec, Run(intervalSec, evs[..|evs| - 1]), evs[|evs| - 1])
  {
  }

  /**
   With or without a timer: whenever the thread takes the slot, it makes a full pass exactly when
   no names were queued since it last took it.
   */
  lemma FullPassIff(intervalSec: real, evs: seq<BoxEvent>, fetchOk: bool)
    requires CanTake(Run(intervalSec, evs).box, intervalSec)
    ensures var batch := Run(intervalSec, evs).box.pending;
            && Run(intervalSec, evs + [Take(fetchOk)]).taken == Run(intervalSec, evs).taken + [batch]
            && (batch.None? <==> !exists j :: Waiting(intervalSec, evs, j))
  {
    PendingIffWaiting(intervalSec, evs);
    assert (evs + [Take(fetchOk)])[..|evs|] == evs;
  }

  // ---- when the thread gets to the slot ----

  /** The thread has taken the slot before. */
  ghost predicate TookBefore(intervalSec: real, evs: seq<BoxEvent>) {
    exists k: nat :: TakesAt(intervalSec, evs, k)
  }

  lemma TookNext(intervalSec: real, evs: seq<BoxEvent>)
    requires evs != []
    ensures var k := |evs| - 1;
            TookBefore(intervalSec, evs) <==> TookBefore(intervalSec, evs[..k]) || TakesAt(intervalSec, evs, k)
  {
    var k := |evs| - 1;
    forall i: nat | i < k
      ensures TakesAt(intervalSec, evs, i) <==> TakesAt(intervalSec, evs[..k], i)
    {
      assert evs[..k][..i] == evs[..i];
    }
  }

  lemma {:induction false} WakeIff(intervalSec: real, evs: seq<BoxEvent>)
    ensures Run(intervalSec, evs).box.wake <==>
            !TookBefore(intervalSec, evs) || Run(intervalSec, evs).box.pending.Some?
    ensures Run(intervalSec, evs).box.shutdown <==> exists k :: 0 <= k < |evs| && evs[k].Shutdown?
  {
    if evs != [] {
      var k := |evs| - 1;
      var before := evs[..k];
      WakeIff(intervalSec, before);
      TookNext(intervalSec, evs);
      assert TakesAt(intervalSec, evs, k) <==> evs[k].Take? && CanTake(Run(intervalSec, before).box, intervalSec);
      RunNext(intervalSec, evs);
      assert evs == before + [evs[k]];
      hide TookBefore, TakesAt, Run;
    }
  }

  /**
   The thread gets to the slot exactly before shutdown, and then for the timer, for names queued
   since it last took the slot, or because it has not taken it yet.
   */
  lemma TakesIff(intervalSec: real, evs: seq<BoxEvent>, fetchOk: bool)
    ensures Run(intervalSec, evs + [Take(fetchOk)]) != Run(intervalSec, evs) <==>
            && (forall k :: 0 <= k < |evs| ==> !evs[k].Shutdown?)
            && (intervalSec > 0.0 || !TookBefore(intervalSec, evs) || exists j :: Waiting(intervalSec, evs, j))
  {
    WakeIff(intervalSec, evs);
    PendingIffWaiting(intervalSec, evs);
    assert (evs + [Take(fetchOk)])[..|evs|] == evs;
    RunNext(intervalSec, evs + [Take(fetchOk)]);
    hide Run, TookBefore, Waiting;
  }

  // ---- every name in a batch was queued ----

  lemma {:induction false} BatchNames(batches: seq<Option<seq<string>>>, i: nat, name: string)
    requires i < |batches| && name in NamesOf(batches[i])
    ensures name in Flatten(batches)
  {
    var k := |batches| - 1;
    if i < k {
      BatchNames(batches[..k], i, name);
    }
  }

  lemma {:induction false} QueuedNames(intervalSec: real, evs: seq<BoxEvent>, name: string)
    requires name in Run(intervalSec, evs).queued
    ensures exists j :: 0 <= j < |evs| && evs[j].Queue? && name in evs[j].names
  {
    var k := |evs| - 1;
    if name in Run(intervalSec, evs[..k]).queued {
      QueuedNames(intervalSec, evs[..k], name);
      var j :| 0 <= j < k && evs[..k][j].Queue? && name in evs[..k][j].names;
      assert evs[j] == evs[..k][j];
    } else {
      assert evs[k].Queue? && name in evs[k].names;
    }
  }

  /** Every name in a batch the sync thread takes was queued by some callback. */
  lemma BatchWasQueued(intervalSec: real, evs: seq<BoxEvent>, i: nat, name: string)
    requires i < |Run(intervalSec, evs).taken| && name in NamesOf(Run(intervalSec, evs).taken[i])
    ensures exists j :: 0 <= j < |evs| && evs[j].Queue? && name in evs[j].names
  {
    var m := Run(intervalSec, evs);
    MailConserved(intervalSec, evs);
    BatchNames(m.taken, i, name);
    assert name in Flatten(m.taken) + NamesOf(m.box.pending);
    QueuedNames(intervalSec, evs, name);
  }
}
