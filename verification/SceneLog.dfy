/**
 What the log of scene messages says by itself: which frames are in the scene, which moves of a
 frame are still current, and how many moves fall into a window of time.
 */
module SceneLog {
  import opened Geometry
  import opened SceneStore

  /** Frames whose last ADD or REMOVE message is an ADD. */
  function InScene(log: seq<Message>): set<string> {
    if log == [] then {}
    else
      var k := |log| - 1;
      match log[k]
      case Add(f, _, _, _) => InScene(log[..k]) + {f}
      case Remove(f, _) => InScene(log[..k]) - {f}
      case Move(_, _, _, _, _, _) => InScene(log[..k])
  }

  /** The MOVE messages of a frame since its last REMOVE. */
  function MovesSince(log: seq<Message>, frame: string): seq<Message> {
    if log == [] then []
    else
      var k := |log| - 1;
      if log[k].frame != frame || log[k].Add? then MovesSince(log[..k], frame)
      else if log[k].Remove? then []
      else MovesSince(log[..k], frame) + [log[k]]
  }

  function Removals(log: seq<Message>, frame: string): nat {
    if log == [] then 0
    else
      var k := |log| - 1;
      Removals(log[..k], frame) + if log[k].Remove? && log[k].frame == frame then 1 else 0
  }

  predicate InWindow(m: Message, frame: string, from: real, length: real) {
    m.Move? && m.frame == frame && from <= m.stamp <= from + length
  }

  /** MOVE messages of the frame stamped within the closed window. */
  function MovesIn(log: seq<Message>, frame: string, from: real, length: real): nat {
    if log == [] then 0
    else
      var k := |log| - 1;
      MovesIn(log[..k], frame, from, length) + if InWindow(log[k], frame, from, length) then 1 else 0
  }

  /** Consecutive stamps at least a period apart. */
  ghost predicate Spaced(moves: seq<Message>, period: real) {
    forall i :: 0 < i < |moves| ==> moves[i].stamp >= moves[i - 1].stamp + period
  }

  ghost predicate AllMoves(moves: seq<Message>, frame: string) {
    forall i :: 0 <= i < |moves| ==> moves[i].Move? && moves[i].frame == frame
  }

  lemma {:induction false} MovesSinceAreMoves(log: seq<Message>, frame: string)
    ensures AllMoves(MovesSince(log, frame), frame)
  {
    if log != [] {
      MovesSinceAreMoves(log[..|log| - 1], frame);
    }
  }

  // ---- when a MOVE is due, in plain arithmetic ----

  /** Transform i is the first one for the frame. */
  predicate FirstFor(transforms: seq<Transform>, frame: string, i: nat) {
    i < |transforms| && transforms[i].child == frame && forall j :: 0 <= j < i ==> transforms[j].child != frame
  }

  /** A full period of the update rate has passed; a rate of zero or less sets no limit. */
  predicate PeriodPassed(cfg: SyncConfig, stamp: real, now: real) {
    cfg.rateHz <= 0.0 || now - stamp >= 1.0 / cfg.rateHz
  }

  /** a and b are less than a positive distance apart. */
  predicate Within(a: Vec3, b: Vec3, distance: real) {
    var dx, dy, dz := b.x - a.x, b.y - a.y, b.z - a.z;
    distance > 0.0 && dx * dx + dy * dy + dz * dz < distance * distance
  }

  /** The cosine of half the angle between two orientations, cut at one. */
  function HalfCosine(a: Quat, b: Quat): real {
    var dot := a.w * b.w + a.x * b.x + a.y * b.y + a.z * b.z;
    if dot <= -1.0 || dot >= 1.0 then 1.0 else if dot < 0.0 then -dot else dot
  }

  /** The position moved less than its threshold, and the rotation turned less than its own. */
  predicate BarelyMoved(cfg: SyncConfig, last: Pose, t: Transform) {
    && Within(last.position, t.translation, cfg.minPosition)
    && 2.0 * cfg.acos(HalfCosine(last.orientation, t.rotation)) < cfg.minRotation
  }

  /** After these moves of a frame the transform asks for one more: the first always does. */
  predicate MoveDue(cfg: SyncConfig, moves: seq<Message>, t: Transform, now: real) {
    moves != [] ==>
      var last := moves[|moves| - 1];
      last.Move? ==> PeriodPassed(cfg, last.stamp, now) && !BarelyMoved(cfg, last.pose, t)
  }

  /** The moves gained one: for this transform, stamped now, in its parent frame. */
  predicate OneMoreMove(before: seq<Message>, after: seq<Message>, frame: string, t: Transform, now: real) {
    && |after| == |before| + 1 && after[..|before|] == before
    && var m := after[|before|];
       m.Move? && m.frame == frame && m.stamp == now && m.parent == t.parent && m.pose == Pose(t.translation, t.rotation)
  }

  /** Between the two logs the frame got the MOVE the transform asks for, or none if it asks for none. */
  predicate Answers(cfg: SyncConfig, before: seq<Message>, after: seq<Message>, frame: string, t: Transform, now: real) {
    var moves, moves' := MovesSince(before, frame), MovesSince(after, frame);
    if MoveDue(cfg, moves, t, now) then OneMoreMove(moves, moves', frame, t, now) else moves' == moves
  }

  // ---- what one more message does ----

  lemma LogSnoc(log: seq<Message>, m: Message, frame: string)
    ensures MovesSince(log + [m], frame) ==
              if m.frame != frame || m.Add? then MovesSince(log, frame)
              else if m.Remove? then []
              else MovesSince(log, frame) + [m]
    ensures InScene(log + [m]) ==
              if m.Add? then InScene(log) + {m.frame} else if m.Remove? then InScene(log) - {m.frame} else InScene(log)
  {
  }

  // ---- the rate bound on a log ----

  /** Every prefix of the log keeps the current moves of the frame a period apart. */
  ghost predicate RateOk(log: seq<Message>, frame: string, period: real) {
    forall n :: 0 <= n <= |log| ==> Spaced(MovesSince(log[..n], frame), period)
  }

  /** The time n moves a period apart span at least. */
  function Span(n: nat, period: real): real {
    (n - 1) as real * period
  }

  lemma SpanNext(n: nat, period: real)
    ensures Span(n + 1, period) == Span(n, period) + period && Span(1, period) == 0.0
  {
    var a := (n - 1) as real;
    assert (a + 1.0) * period == a * period + period;
  }

  /**
   Among moves a period apart, if n of them fall into the window then one of those is at
   least n - 1 periods after its start.
   */
  lemma {:induction false} SpacedSpread(moves: seq<Message>, frame: string, from: real, length: real, period: real) returns (i: nat)
    requires period > 0.0 && Spaced(moves, period) && AllMoves(moves, frame)
    requires MovesIn(moves, frame, from, length) > 0
    ensures i < |moves| && InWindow(moves[i], frame, from, length)
    ensures moves[i].stamp >= from + Span(MovesIn(moves, frame, from, length), period)
  {
    hide Span;
    var k := |moves| - 1;
    var before := moves[..k];
    var n := MovesIn(before, frame, from, length);
    SpanNext(n, period);
    if !InWindow(moves[k], frame, from, length) {
      i := SpacedSpread(before, frame, from, length, period);
    } else {
      i := k;
      if n > 0 {
        var j := SpacedSpread(before, frame, from, length, period);
        SpacedFrom(moves, j, k, period);
      }
    }
  }

  lemma {:induction false} SpacedFrom(moves: seq<Message>, i: nat, j: nat, period: real)
    requires period > 0.0 && Spaced(moves, period) && i < j < |moves|
    ensures moves[j].stamp >= moves[i].stamp + period
  {
    if i + 1 < j {
      SpacedFrom(moves, i, j - 1, period);
    }
  }

  /** floor(T * rate) + 1 */
  function WindowBound(rateHz: real, length: real): int {
    (length * rateHz).Floor + 1
  }

  lemma SpacedWindow(moves: seq<Message>, frame: string, from: real, length: real, rateHz: real)
    requires rateHz > 0.0 && length >= 0.0
    requires Spaced(moves, MinPeriod(rateHz)) && AllMoves(moves, frame)
    ensures 0 <= MovesIn(moves, frame, from, length) <= WindowBound(rateHz, length)
  {
    hide Span, WindowBound, Spaced, MovesIn, AllMoves;
    var n := MovesIn(moves, frame, from, length);
    var period := MinPeriod(rateHz);
    if n > 0 {
      var i := SpacedSpread(moves, frame, from, length, period);
      SpanWithin(n, length, rateHz, period);
    } else {
      BoundPositive(rateHz, length);
    }
  }

  lemma BoundPositive(rateHz: real, length: real)
    requires rateHz > 0.0 && length >= 0.0
    ensures WindowBound(rateHz, length) > 0
  {
    NonNegativeProduct(length, rateHz, length * rateHz);
  }

  lemma NonNegativeProduct(a: real, b: real, c: real)
    requires a >= 0.0 && b > 0.0 && c == a * b
    ensures c >= 0.0
  {
  }

  lemma SpanWithin(n: nat, length: real, rateHz: real, period: real)
    requires rateHz > 0.0 && period == 1.0 / rateHz && Span(n, period) <= length
    ensures n <= WindowBound(rateHz, length)
  {
    var m, s := (n - 1) as real, Span(n, period);
    assert period * rateHz == 1.0;
    assert s * rateHz == m * (period * rateHz);
    NonNegativeProduct(length - s, rateHz, (length - s) * rateHz);
    assert m <= length * rateHz;
  }

  /** r stretches of at most the given number of moves. */
  function Stretches(r: nat, bound: int): int {
    r * bound
  }

  lemma StretchesNext(r: nat, bound: int)
    ensures Stretches(r + 1, bound) == Stretches(r, bound) + bound && Stretches(0, bound) == 0
  {
  }

  /**
   The bound on a whole log: a window holds at most floor(T * rate) + 1 moves of a frame for
   each stretch between its removals.
   */
  lemma {:induction false} LogWindow(log: seq<Message>, frame: string, from: real, length: real, rateHz: real)
    requires rateHz > 0.0 && length >= 0.0 && RateOk(log, frame, MinPeriod(rateHz))
    ensures MovesIn(log, frame, from, length)
         <= Stretches(Removals(log, frame), WindowBound(rateHz, length)) + MovesIn(MovesSince(log, frame), frame, from, length)
    ensures MovesIn(log, frame, from, length) <= Stretches(Removals(log, frame) + 1, WindowBound(rateHz, length))
  {
    hide WindowBound, Spaced, Stretches, InWindow, MinPeriod;
    var bound := WindowBound(rateHz, length);
    var since := MovesSince(log, frame);
    assert log[..|log|] == log;
    MovesSinceAreMoves(log, frame);
    SpacedWindow(since, frame, from, length, rateHz);
    StretchesNext(Removals(log, frame), bound);
    if log != [] {
      var k := |log| - 1;
      var before, m := log[..k], log[k];
      assert RateOk(before, frame, MinPeriod(rateHz)) by {
        assert forall n :: 0 <= n <= k ==> before[..n] == log[..n];
      }
      LogWindow(before, frame, from, length, rateHz);
      hide RateOk;
      StretchesNext(Removals(before, frame), bound);
      if m.frame == frame && m.Move? {
        assert since[..|since| - 1] == MovesSince(before, frame);
        assert since[|since| - 1] == m;
      } else if m.frame != frame || m.Add? {
        NotInWindow(m, frame, from, length);
      } else {
        NotInWindow(m, frame, from, length);
      }
    }
  }

  lemma NotInWindow(m: Message, frame: string, from: real, length: real)
    requires m.frame != frame || !m.Move?
    ensures !InWindow(m, frame, from, length)
  {
  }
}
