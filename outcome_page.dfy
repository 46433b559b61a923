/**
 * The outcome scorer: the end-of-game summary computed from the final state,
 * the verdict and stability label chosen from it, and the restart handler.
 */
module OutcomePage {
  import opened GameContext

  datatype Summary = Summary(successRate: nat, isSuccess: bool, crewSafetyPercent: nat)

  datatype Verdict = SafeModeEntered | OperatedSafely | RequiresReview
  datatype Stability = Excellent | Moderate

  /**
   * `Math.round(correct / total * 100)`, or 0 without decisions. For
   * non-negative operands the rounding is exact half-up: `(200c + t) / (2t)`.
   */
  function SuccessRate(correct: nat, total: nat): (r: nat)
    ensures total == 0 ==> r == 0
    ensures total > 0 ==> 2 * total * r <= 200 * correct + total < 2 * total * (r + 1)
    ensures correct <= total ==> r <= 100
  {
    if total > 0 then
      var r := (200 * correct + total) / (2 * total);
      RoundingBounds(200 * correct + total, 2 * total, r);
      if correct <= total then
        RoundedAtMostHundred(correct, total, r);
        r
      else
        r
    else
      0
  }

  /** The defining inequalities of Euclidean division, with the nonlinear step spelled out. */
  lemma RoundingBounds(n: nat, d: nat, q: nat)
    requires d > 0 && q == n / d
    ensures d * q <= n < d * (q + 1)
  {
    assert n == d * (n / d) + n % d;
    assert d * (q + 1) == d * q + d;
  }

  lemma RoundedAtMostHundred(correct: nat, total: nat, r: nat)
    requires 0 < total && correct <= total
    requires 2 * total * r <= 200 * correct + total
    ensures r <= 100
  {
    assert 2 * total * r < 2 * total * 101;
    MulCancel(2 * total, r, 101);
  }

  lemma MulCancel(a: nat, x: nat, y: nat)
    requires a > 0 && a * x < a * y
    ensures x < y
  {
    if x >= y {
      MulMonotone(a, y, x);
    }
  }

  lemma MulMonotone(a: nat, x: nat, y: nat)
    requires x <= y
    ensures a * x <= a * y
  {
    assert a * y == a * x + a * (y - x);
  }

  /** Success requires staying out of safe mode and at least half the decisions right. */
  function IsSuccess(safeMode: bool, rate: nat): (b: bool)
    ensures safeMode ==> !b
    ensures !safeMode ==> (b <==> rate >= 50)
  {
    !safeMode && rate >= 50
  }

  /** Safe mode forces 100; otherwise the rate selects 100, 85 or 70. */
  function CrewSafetyPercent(safeMode: bool, rate: nat): (p: nat)
    ensures p == 70 || p == 85 || p == 100
    ensures safeMode ==> p == 100
    ensures !safeMode ==> (p == 100 <==> rate >= 75) && (p == 85 <==> 50 <= rate < 75) && (p == 70 <==> rate < 50)
  {
    if safeMode then 100 else if rate >= 75 then 100 else if rate >= 50 then 85 else 70
  }

  /** The summary the outcome page shows for a final state. */
  function Score(s: GameState): (sum: Summary)
    ensures sum.successRate == SuccessRate(s.correctDecisions, s.totalDecisions)
    ensures sum.isSuccess == IsSuccess(s.safeModeActivated, sum.successRate)
    ensures sum.crewSafetyPercent == CrewSafetyPercent(s.safeModeActivated, sum.successRate)
    ensures ScoreConsistent(s) ==> sum.successRate <= 100
  {
    var rate := SuccessRate(s.correctDecisions, s.totalDecisions);
    Summary(rate, IsSuccess(s.safeModeActivated, rate), CrewSafetyPercent(s.safeModeActivated, rate))
  }

  /** The headline: safe mode first, then success, then a review. */
  function VerdictOf(s: GameState): (v: Verdict)
    ensures v == SafeModeEntered <==> s.safeModeActivated
    ensures v == OperatedSafely <==> !s.safeModeActivated && Score(s).isSuccess
    ensures v == RequiresReview <==> !s.safeModeActivated && !Score(s).isSuccess
  {
    if s.safeModeActivated then SafeModeEntered
    else if Score(s).isSuccess then OperatedSafely
    else RequiresReview
  }

  function StabilityOf(s: GameState): (l: Stability)
    ensures l == Excellent <==> Score(s).isSuccess
  {
    if Score(s).isSuccess then Excellent else Moderate
  }

  /** The summary depends only on the two decision counters and the safe-mode flag. */
  lemma ScoreDeterminedByCounters(s: GameState, t: GameState)
    requires s.correctDecisions == t.correctDecisions && s.totalDecisions == t.totalDecisions
    requires s.safeModeActivated == t.safeModeActivated
    ensures Score(s) == Score(t) && VerdictOf(s) == VerdictOf(t) && StabilityOf(s) == StabilityOf(t)
  {
  }

  lemma ScoreExamples()
    ensures SuccessRate(4, 4) == 100 && IsSuccess(false, 100) && CrewSafetyPercent(false, 100) == 100
    ensures SuccessRate(0, 1) == 0 && !IsSuccess(true, 0) && CrewSafetyPercent(true, 0) == 100
    ensures SuccessRate(2, 4) == 50 && IsSuccess(false, 50) && CrewSafetyPercent(false, 50) == 85
  {
  }

  /** The playthrough of four correct decisions with three advances between them. */
  lemma AllCorrectScenario()
    ensures var s := Run(InitialState, [MakeDecision(true), NextIncident, MakeDecision(true), NextIncident,
                                        MakeDecision(true), NextIncident, MakeDecision(true)]);
      && s.totalDecisions == 4 && s.correctDecisions == 4
      && Score(s) == Summary(100, true, 100)
  {
    var round := [MakeDecision(true), NextIncident];
    var acts := round + round + round + [MakeDecision(true)];
    assert acts == [MakeDecision(true), NextIncident, MakeDecision(true), NextIncident,
                    MakeDecision(true), NextIncident, MakeDecision(true)];
    var s1 := Run(InitialState, round);
    assert s1 == InitialState.(totalDecisions := 1, correctDecisions := 1, currentIncident := 1, incidentsCompleted := 1);
    var s2 := Run(s1, round);
    assert s2.totalDecisions == 2 && s2.correctDecisions == 2;
    var s3 := Run(s2, round);
    assert s3.totalDecisions == 3 && s3.correctDecisions == 3;
    RunAppend(InitialState, round, round);
    RunAppend(InitialState, round + round, round);
    RunAppend(InitialState, round + round + round, [MakeDecision(true)]);
    RunSingle(s3, MakeDecision(true));
  }

  /** One wrong decision and then safe mode: failure, yet full crew safety. */
  lemma WrongThenSafeModeScenario()
    ensures var s := Run(InitialState, [MakeDecision(false), ActivateSafeMode]);
      && Score(s) == Summary(0, false, 100) && VerdictOf(s) == SafeModeEntered
  {
  }

  /** Restart dispatches exactly `RESET_GAME`, which brings back the intro. */
  method HandleRestart(store: GameStore)
    requires store.Valid() && store.state.currentPage == Outcome
    modifies store
    ensures store.Valid() && PageStep(old(store.state.currentPage), store.state.currentPage)
    ensures store.history == old(store.history) + [ResetGame]
    ensures store.state == InitialState && store.state.currentPage == Intro
  {
    store.Dispatch(ResetGame);
  }
}
