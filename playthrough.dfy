/**
 * Whole playthroughs: the intro's entry button, the control room with every
 * system switched on, the four incidents and the outcome page, all driving
 * one reducer cell. The page controllers are composed exactly as the router
 * mounts them, one page after the other.
 */
module Playthrough {
  import opened GameContext
  import opened OutcomePage
  import opened Level1Page
  import opened Level2Page

  /** The intro page's button into the control room: `SET_PAGE('level1')`. */
  method EnterControlRoom(store: GameStore)
    requires store.Valid() && store.state.currentPage == Intro
    modifies store
    ensures store.Valid() && PageStep(old(store.state.currentPage), store.state.currentPage)
    ensures store.history == old(store.history) + [SetPage(Level1)]
    ensures store.state == Reduce(old(store.state), SetPage(Level1))
    ensures StatusesMirror(store.state, NoneActive)
  {
    store.Dispatch(SetPage(Level1));
    EntryMirrorsNoneActive(old(store.state));
  }

  /** From a fresh game: enter the control room, switch on all five systems, start the mission. */
  method ReachIncidents() returns (store: GameStore)
    ensures fresh(store) && store.Valid()
    ensures store.state.currentPage == Level2 && store.state.aiMessage == AnomaliesDetected
    ensures forall k :: store.state.System(k).status == Nominal
    ensures && store.state.currentIncident == 0 && store.state.incidentsCompleted == 0
            && store.state.correctDecisions == 0 && store.state.totalDecisions == 0
            && !store.state.safeModeActivated
  {
    store := new GameStore();
    EnterControlRoom(store);
    var control := new SystemActivation(store);
    ghost var entered := store.state;
    SwitchOnAll(control);
    assert SameProgress(entered, store.state);
    ghost var on := store.state;
    control.HandleBeginIncidents();
    assert forall k :: store.state.System(k) == on.System(k);
  }

  /** Switches on the five systems in panel order, starting from all off. */
  method SwitchOnAll(control: SystemActivation)
    requires control.Valid() && control.Mounted() && control.Mirrors() && control.systemsActivated == NoneActive
    modifies control, control.store
    ensures control.Valid() && control.Mounted() && control.Mirrors() && control.StartMissionOffered()
    ensures control.systemsActivated == Flags(true, true, true, true, true)
    ensures forall k :: control.store.state.System(k).status == Nominal
    ensures SameProgress(old(control.store.state), control.store.state)
  {
    ghost var s0 := control.store.state;
    control.ToggleSystem(LifeSupport);
    control.ToggleSystem(PowerSystems);
    control.ToggleSystem(ThermalControl);
    control.ToggleSystem(AttitudeControl);
    ghost var s4 := control.store.state;
    assert SameProgress(s0, s4);
    control.ToggleSystem(Communications);
    assert control.systemsActivated == Flags(true, true, true, true, true);
  }

  /** One incident: click choice `choice` of the current card, then "Next". */
  method AnswerAndAdvance(page: IncidentResponse, choice: nat)
    requires page.Valid() && page.Mounted() && !page.HasSelectedChoice() && choice < 3
    modifies page, page.store
    ensures page.Valid() && PageStep(old(page.store.state.currentPage), page.store.state.currentPage)
    ensures var s0, correct := old(page.store.state), choice < 2;
      var answered := s0.(correctDecisions := s0.correctDecisions + (if correct then 1 else 0),
                          totalDecisions := s0.totalDecisions + 1);
      if old(page.IsLastIncident()) then
        page.store.state == answered.(aiMessage := if correct then DecisionExcellent else DecisionSuboptimal,
                                      currentPage := Outcome)
      else
        && page.currentIncidentIndex == old(page.currentIncidentIndex) + 1
        && page.Mounted() && !page.HasSelectedChoice()
        && page.store.state == answered.(currentIncident := s0.currentIncident + 1,
                                         incidentsCompleted := s0.incidentsCompleted + 1,
                                         aiMessage := NewAlert)
  {
    page.ClickChoice(choice);
    page.HandleNext();
  }

  /** With four decisions every success rate is an exact multiple of 25. */
  lemma QuarterRates(n: nat)
    requires n <= 4
    ensures SuccessRate(n, 4) == 25 * n
  {
  }

  /** How many of the answers `ci` to incident `i` the catalogue tags correct: those among the first two choices. */
  function CorrectCount(c0: nat, c1: nat, c2: nat, c3: nat): (n: nat)
    requires c0 < 3 && c1 < 3 && c2 < 3 && c3 < 3
    ensures n == (if c0 < 2 then 1 else 0) + (if c1 < 2 then 1 else 0) + (if c2 < 2 then 1 else 0) + (if c3 < 2 then 1 else 0)
  {
    var cat := Incidents();
    (if cat[0].choices[c0].isCorrect then 1 else 0) + (if cat[1].choices[c1].isCorrect then 1 else 0)
    + (if cat[2].choices[c2].isCorrect then 1 else 0) + (if cat[3].choices[c3].isCorrect then 1 else 0)
  }

  /**
   * A whole game answering choice `ci` of incident `i` and never entering
   * safe mode, then "Restart". The outcome is read off the final state before
   * the restart.
   */
  method FullPlaythrough(c0: nat, c1: nat, c2: nat, c3: nat) returns (final: GameState, summary: Summary, verdict: Verdict, restarted: GameState)
    requires c0 < 3 && c1 < 3 && c2 < 3 && c3 < 3
    ensures final.currentPage == Outcome && !final.safeModeActivated
    ensures final.totalDecisions == 4 && final.correctDecisions == CorrectCount(c0, c1, c2, c3)
    ensures final.currentIncident == 3 && final.incidentsCompleted == 3
    ensures summary == Score(final) && verdict == VerdictOf(final)
    ensures var n := CorrectCount(c0, c1, c2, c3);
      && summary.successRate == 25 * n
      && (summary.isSuccess <==> n >= 2)
      && summary.crewSafetyPercent == (if n >= 3 then 100 else if n == 2 then 85 else 70)
      && verdict == (if n >= 2 then OperatedSafely else RequiresReview)
    ensures restarted == InitialState
  {
    var store := ReachIncidents();
    var page := new IncidentResponse(store);
    assert page.StartedFresh();
    AnswerAndAdvance(page, c0);
    AnswerAndAdvance(page, c1);
    AnswerAndAdvance(page, c2);
    AnswerAndAdvance(page, c3);
    page.FreshCoupling();
    assert store.state.currentIncident == page.currentIncidentIndex == 3;
    final := store.state;
    QuarterRates(CorrectCount(c0, c1, c2, c3));
    summary := Score(final);
    verdict := VerdictOf(final);
    HandleRestart(store);
    restarted := store.state;
  }

  /** The first incident answered with choice `c0`, then "Safe Mode". */
  method SafeModePlaythrough(c0: nat) returns (final: GameState, summary: Summary, verdict: Verdict)
    requires c0 < 3
    ensures final.currentPage == Outcome && final.safeModeActivated
    ensures final.totalDecisions == 1 && final.currentIncident == 0 && final.incidentsCompleted == 0
    ensures summary == Score(final) && verdict == VerdictOf(final)
    ensures summary == Summary(if c0 < 2 then 100 else 0, false, 100) && verdict == SafeModeEntered
  {
    var store := ReachIncidents();
    var page := new IncidentResponse(store);
    assert page.StartedFresh();
    page.ClickChoice(c0);
    page.HandleSafeMode();
    page.FreshCoupling();
    final := store.state;
    summary := Score(final);
    verdict := VerdictOf(final);
  }
}
