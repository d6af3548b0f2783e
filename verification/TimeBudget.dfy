/**
 How one planning time-out travels from the skill parameters to the planner of each candidate
 and to the three waits of the action client. Milliseconds and seconds are real numbers.
 */
module TimeBudget {
  import opened Wrappers

  const DEFAULT_MS := 15000.0
  const MAX_MS := 300000.0

  // ---- the skill: parameters to goal ----

  /** `timeout_ms` is optional; an absent, non-finite or non-positive one means the default. */
  function TimeoutMs(requested: Option<Double>): (ms: real)
    ensures ms > 0.0
  {
    if requested.Some? && requested.value.FinitePositive() then requested.value.r else DEFAULT_MS
  }

  function GoalTimeoutSec(requested: Option<Double>): Double {
    Finite(TimeoutMs(requested) / 1000.0)
  }

  // ---- the server: goal to candidates ----

  predicate FallsBack(goalSec: Double) {
    !goalSec.FinitePositive()
  }

  /** `ResolveCandidateTimeoutSec`: an even share for each candidate, of five seconds if the goal names none. */
  function CandidateTimeoutSec(goalSec: Double, candidates: nat): real {
    (if FallsBack(goalSec) then 5.0 else goalSec.r) / (if candidates > 1 then candidates else 1) as real
  }

  /** n such shares make up the total. */
  predicate EvenShare(share: real, n: nat, total: real) {
    n as real * share == total
  }

  /** The shares of the first n candidates. */
  function SharesSec(goalSec: Double, candidates: nat, n: nat): real {
    if n == 0 then 0.0 else SharesSec(goalSec, candidates, n - 1) + CandidateTimeoutSec(goalSec, candidates)
  }

  // ---- the client: the three waits ----

  function BoundedMs(timeoutMs: Double): real {
    if timeoutMs.FinitePositive() then (if timeoutMs.r < MAX_MS then timeoutMs.r else MAX_MS) else DEFAULT_MS
  }

  function Ceil(x: real): int {
    -(-x).Floor
  }

  /** Whole milliseconds, at least one. */
  function WaitMs(timeoutMs: Double): int {
    var ms := Ceil(BoundedMs(timeoutMs));
    if ms > 1 then ms else 1
  }

  /** Waiting for the server, and then for the goal to be accepted. */
  function ConnectionMs(timeoutMs: Double): int {
    if WaitMs(timeoutMs) < 5000 then WaitMs(timeoutMs) else 5000
  }

  function ResultMs(timeoutMs: Double): int {
    WaitMs(timeoutMs) + 5000
  }

  // ---- properties ----

  /** The ceiling is the least whole number of milliseconds not below. */
  lemma WaitCovers(timeoutMs: Double)
    ensures BoundedMs(timeoutMs) <= WaitMs(timeoutMs) as real < BoundedMs(timeoutMs) + 1.0
    ensures 1 <= WaitMs(timeoutMs) <= 300000
  {
    assert BoundedMs(timeoutMs) > 0.0;
  }

  /** For every double, also NaN and the infinities, the three waits together take at most 315 seconds. */
  lemma ThreeWaitsBounded(timeoutMs: Double)
    ensures 0 < ConnectionMs(timeoutMs) <= 5000 < ResultMs(timeoutMs)
    ensures ConnectionMs(timeoutMs) + ConnectionMs(timeoutMs) + ResultMs(timeoutMs) <= 315000
    ensures ConnectionMs(timeoutMs) + ConnectionMs(timeoutMs) + ResultMs(timeoutMs) == 315000 <==>
            timeoutMs.Finite? && timeoutMs.r > 299999.0
  {
    WaitCovers(timeoutMs);
    if WaitMs(timeoutMs) == 300000 {
      assert timeoutMs.Finite? && timeoutMs.r > 299999.0;
    }
    if timeoutMs.Finite? && timeoutMs.r > 299999.0 {
      assert WaitMs(timeoutMs) == 300000;
    }
  }

  /** The waits for a time-out: it rounded up and five seconds more, and at most 305; 20 seconds where it is none. */
  lemma WaitsExact(timeoutMs: Double)
    ensures ConnectionMs(timeoutMs) == if ResultMs(timeoutMs) < 10000 then ResultMs(timeoutMs) - 5000 else 5000
    ensures !timeoutMs.FinitePositive() ==> ResultMs(timeoutMs) == 20000
    ensures timeoutMs.FinitePositive() && timeoutMs.r >= 300000.0 ==> ResultMs(timeoutMs) == 305000
    ensures timeoutMs.FinitePositive() && timeoutMs.r < 300000.0 ==>
              timeoutMs.r + 5000.0 <= ResultMs(timeoutMs) as real < timeoutMs.r + 5001.0
  {
    WaitCovers(timeoutMs);
  }

  lemma {:induction false} SharesLinear(goalSec: Double, candidates: nat, n: nat)
    ensures SharesSec(goalSec, candidates, n) == n as real * CandidateTimeoutSec(goalSec, candidates)
  {
    hide CandidateTimeoutSec;
    if n > 0 {
      SharesLinear(goalSec, candidates, n - 1);
      var p := CandidateTimeoutSec(goalSec, candidates);
      assert n as real * p == (n - 1) as real * p + p by {
        Distribute((n - 1) as real, p);
      }
    }
  }

  lemma Distribute(a: real, p: real)
    ensures (a + 1.0) * p == a * p + p
  {
  }

  lemma ShareTimesCount(total: real, n: real)
    requires n > 0.0
    ensures n * (total / n) == total
  {
  }

  lemma CandidateShare(goalSec: Double, candidates: nat)
    requires candidates > 0
    ensures EvenShare(CandidateTimeoutSec(goalSec, candidates), candidates, if goalSec.FinitePositive() then goalSec.r else 5.0)
  {
    ShareTimesCount(if goalSec.FinitePositive() then goalSec.r else 5.0, candidates as real);
  }

  /** On a goal built by the skill the server never falls back, and the shares of its candidates sum to the total. */
  lemma SharesSumToTotal(requested: Option<Double>, candidates: nat)
    requires candidates > 0
    ensures !FallsBack(GoalTimeoutSec(requested))
    ensures SharesSec(GoalTimeoutSec(requested), candidates, candidates) == TimeoutMs(requested) / 1000.0
    ensures forall n :: 0 <= n < candidates ==> SharesSec(GoalTimeoutSec(requested), candidates, n) < TimeoutMs(requested) / 1000.0
  {
    var sec := GoalTimeoutSec(requested);
    var share := CandidateTimeoutSec(sec, candidates);
    SharesLinear(sec, candidates, candidates);
    ShareTimesCount(sec.r, candidates as real);
    assert share > 0.0;
    forall n | 0 <= n < candidates
      ensures SharesSec(sec, candidates, n) < sec.r
    {
      SharesLinear(sec, candidates, n);
      LessTimes(n as real, candidates as real, share);
    }
  }

  lemma LessTimes(a: real, b: real, p: real)
    requires a < b && p > 0.0
    ensures a * p < b * p
  {
    assert (b - a) * p > 0.0;
  }

  /**
   The skill passes its own time-out on to the client. The client waits for the result at least
   five seconds longer than all candidates may take together exactly when the time-out is at
   most 300 seconds; beyond that it gives up while the server may still be planning.
   */
  lemma ResultWaitCoversBudget(requested: Option<Double>, candidates: nat)
    requires candidates > 0
    ensures var budgetMs := SharesSec(GoalTimeoutSec(requested), candidates, candidates) * 1000.0;
            ResultMs(Finite(GoalTimeoutSec(requested).r * 1000.0)) as real >= budgetMs + 5000.0 <==> TimeoutMs(requested) <= MAX_MS
  {
    SharesSumToTotal(requested, candidates);
    WaitCovers(Finite(GoalTimeoutSec(requested).r * 1000.0));
    hide SharesSec;
  }

  /** A request of 310 seconds: the client gives up after 305, the candidates may take all 310. */
  lemma LongRequestOutlastsClient()
    ensures ResultMs(Finite(GoalTimeoutSec(Some(Finite(310000.0))).r * 1000.0)) == 305000
    ensures SharesSec(GoalTimeoutSec(Some(Finite(310000.0))), 2, 2) == 310.0
  {
    SharesSumToTotal(Some(Finite(310000.0)), 2);
    WaitCovers(Finite(310000.0));
  }
}
