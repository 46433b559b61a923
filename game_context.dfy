/**
 * The game's single state record, its nine actions and the reducer that is
 * the only authority for state transitions. A playthrough is the left fold
 * `Run` of the reducer over the dispatched actions; `GameStore` is the cell
 * that holds the current state and applies dispatches in order.
 */
module GameContext {

  datatype SystemStatus = Nominal | Warning | Critical | Standby
  datatype GamePage = Intro | Level1 | Level2 | Outcome
  datatype CrewStatus = Green | Yellow | Red

  /** The state of one subsystem panel. */
  datatype SystemState = SystemState(status: SystemStatus, value: int, name: string)

  /** The five keys a `SET_SYSTEM_STATUS` action may name. */
  datatype SystemKey = LifeSupport | PowerSystems | ThermalControl | AttitudeControl | Communications

  /** The four keys an `UPDATE_METRIC` action may name. */
  datatype Metric = OxygenLevel | PowerReserves | InternalTemp | StructuralStress

  /**
   * The status lines the game writes into `aiMessage`, one constructor per
   * fixed text; `SystemsActive(n)` stands for the "n/5 systems active" template.
   */
  datatype AiMessage =
    | AwaitingActivation
    | ActivationPrompt
    | AllSystemsNominal
    | SystemsActive(count: nat)
    | AnomaliesDetected
    | DecisionExcellent
    | DecisionSuboptimal
    | NewAlert

  datatype GameState = GameState(
    currentPage: GamePage,
    lifeSupport: SystemState,
    powerSystems: SystemState,
    thermalControl: SystemState,
    attitudeControl: SystemState,
    communications: SystemState,
    oxygenLevel: int,
    powerReserves: int,
    internalTemp: int,
    structuralStress: int,
    crewStatus: CrewStatus,
    currentIncident: nat,
    incidentsCompleted: nat,
    correctDecisions: nat,
    totalDecisions: nat,
    safeModeActivated: bool,
    aiMessage: AiMessage)
  {
    /** The subsystem a key names (`state[action.system]`). */
    function System(k: SystemKey): SystemState {
      match k
      case LifeSupport => lifeSupport
      case PowerSystems => powerSystems
      case ThermalControl => thermalControl
      case AttitudeControl => attitudeControl
      case Communications => communications
    }

    /** The state with subsystem `k` replaced (`{ ...state, [system]: sys }`). */
    function WithSystem(k: SystemKey, sys: SystemState): (r: GameState)
      ensures r.System(k) == sys
      ensures forall j :: j != k ==> r.System(j) == System(j)
      ensures AgreeOutsideSystems(this, r)
    {
      match k
      case LifeSupport => this.(lifeSupport := sys)
      case PowerSystems => this.(powerSystems := sys)
      case ThermalControl => this.(thermalControl := sys)
      case AttitudeControl => this.(attitudeControl := sys)
      case Communications => this.(communications := sys)
    }

    /** The metric a key names (`state[action.metric]`). */
    function MetricValue(m: Metric): int {
      match m
      case OxygenLevel => oxygenLevel
      case PowerReserves => powerReserves
      case InternalTemp => internalTemp
      case StructuralStress => structuralStress
    }

    /** The state with metric `m` overwritten (`{ ...state, [metric]: value }`). */
    function WithMetric(m: Metric, v: int): (r: GameState)
      ensures r.MetricValue(m) == v
      ensures forall n :: n != m ==> r.MetricValue(n) == MetricValue(n)
      ensures AgreeOutsideMetrics(this, r) && r.crewStatus == crewStatus
    {
      match m
      case OxygenLevel => this.(oxygenLevel := v)
      case PowerReserves => this.(powerReserves := v)
      case InternalTemp => this.(internalTemp := v)
      case StructuralStress => this.(structuralStress := v)
    }
  }

  /** `a` and `b` differ at most in their five subsystems. */
  predicate AgreeOutsideSystems(a: GameState, b: GameState) {
    a.(lifeSupport := b.lifeSupport, powerSystems := b.powerSystems, thermalControl := b.thermalControl,
       attitudeControl := b.attitudeControl, communications := b.communications) == b
  }

  /** `a` and `b` differ at most in their four metrics and the crew status. */
  predicate AgreeOutsideMetrics(a: GameState, b: GameState) {
    a.(oxygenLevel := b.oxygenLevel, powerReserves := b.powerReserves, internalTemp := b.internalTemp,
       structuralStress := b.structuralStress, crewStatus := b.crewStatus) == b
  }

  datatype GameAction =
    | SetPage(page: GamePage)
    | SetSystemStatus(system: SystemKey, status: SystemStatus)
    | UpdateMetric(metric: Metric, value: int)
    | SetCrewStatus(crew: CrewStatus)
    | MakeDecision(correct: bool)
    | NextIncident
    | ActivateSafeMode
    | SetAiMessage(message: AiMessage)
    | ResetGame

  const InitialState: GameState := GameState(
    Intro,
    SystemState(Standby, 100, "Life Support"),
    SystemState(Standby, 100, "Power Systems"),
    SystemState(Standby, 100, "Thermal Control"),
    SystemState(Standby, 100, "Attitude Control"),
    SystemState(Standby, 100, "Communications"),
    98, 85, 22, 5,
    Green,
    0, 0, 0, 0,
    false,
    AwaitingActivation)

  /** The decision counters are consistent: no more correct than total decisions. */
  predicate ScoreConsistent(s: GameState) {
    s.correctDecisions <= s.totalDecisions
  }

  /** None of the four progress counters of `s` is larger than in `t`. */
  predicate CountersNonDecreasing(s: GameState, t: GameState) {
    && s.currentIncident <= t.currentIncident
    && s.incidentsCompleted <= t.incidentsCompleted
    && s.correctDecisions <= t.correctDecisions
    && s.totalDecisions <= t.totalDecisions
  }

  /**
   * One step along the game's page path: stay, intro to control room, control
   * room to incidents, incidents to outcome, or outcome back to the intro.
   */
  predicate PageStep(p: GamePage, q: GamePage) {
    || p == q
    || (p == Intro && q == Level1)
    || (p == Level1 && q == Level2)
    || (p == Level2 && q == Outcome)
    || (p == Outcome && q == Intro)
  }

  /** The crew status `UPDATE_METRIC` leaves: thresholds only for oxygen below 85. */
  function CrewAfterMetric(prior: CrewStatus, m: Metric, v: int): (c: CrewStatus)
    ensures m != OxygenLevel || v >= 85 ==> c == prior
    ensures c == Green ==> prior == Green
    ensures m == OxygenLevel && v < 70 ==> c == Red
    ensures m == OxygenLevel && 70 <= v < 85 ==> c == Yellow
  {
    if m == OxygenLevel && v < 85 then (if v < 70 then Red else Yellow) else prior
  }

  /** The reducer: a total function from a state and an action to the next state. */
  function Reduce(s: GameState, a: GameAction): (r: GameState)
    ensures ScoreConsistent(s) ==> ScoreConsistent(r)
    ensures !a.ResetGame? ==> CountersNonDecreasing(s, r)
    ensures s.safeModeActivated && !a.ResetGame? ==> r.safeModeActivated
    ensures !s.safeModeActivated && r.safeModeActivated ==> a == ActivateSafeMode
    ensures s.crewStatus != Green && r.crewStatus == Green ==> a.SetCrewStatus? || a.ResetGame?
  {
    match a
    case SetPage(p) =>
      if p == Level1 then
        s.(currentPage := p,
           lifeSupport := s.lifeSupport.(status := Standby),
           powerSystems := s.powerSystems.(status := Standby),
           thermalControl := s.thermalControl.(status := Standby),
           attitudeControl := s.attitudeControl.(status := Standby),
           communications := s.communications.(status := Standby),
           aiMessage := ActivationPrompt)
      else
        s.(currentPage := p)
    case SetSystemStatus(k, st) =>
      s.WithSystem(k, s.System(k).(status := st))
    case UpdateMetric(m, v) =>
      s.WithMetric(m, v).(crewStatus := CrewAfterMetric(s.crewStatus, m, v))
    case SetCrewStatus(c) =>
      s.(crewStatus := c)
    case MakeDecision(correct) =>
      s.(correctDecisions := s.correctDecisions + (if correct then 1 else 0),
         totalDecisions := s.totalDecisions + 1)
    case NextIncident =>
      s.(currentIncident := s.currentIncident + 1,
         incidentsCompleted := s.incidentsCompleted + 1)
    case ActivateSafeMode =>
      s.(safeModeActivated := true)
    case SetAiMessage(msg) =>
      s.(aiMessage := msg)
    case ResetGame =>
      InitialState
  }

  /** A playthrough: the reducer applied to each action in dispatch order. */
  function Run(s: GameState, acts: seq<GameAction>): GameState
    decreases |acts|
  {
    if |acts| == 0 then s else Run(Reduce(s, acts[0]), acts[1..])
  }

  // ---------------------------------------------------------------------
  // Effects of the individual actions

  lemma InitialStateValues()
    ensures InitialState.currentPage == Intro
    ensures forall k :: InitialState.System(k).status == Standby && InitialState.System(k).value == 100
    ensures InitialState.crewStatus == Green && !InitialState.safeModeActivated
    ensures InitialState.currentIncident == 0 && InitialState.incidentsCompleted == 0
    ensures InitialState.correctDecisions == 0 && InitialState.totalDecisions == 0
    ensures InitialState.aiMessage == AwaitingActivation
  {
  }

  /** Entering the control room resets every panel to standby and sets the activation prompt. */
  lemma SetPageLevel1Effect(s: GameState)
    ensures var r := Reduce(s, SetPage(Level1));
      && r.currentPage == Level1
      && r.aiMessage == ActivationPrompt
      && (forall k :: r.System(k) == s.System(k).(status := Standby))
      && AgreeOutsideSystems(s.(currentPage := Level1, aiMessage := ActivationPrompt), r)
  {
  }

  /** Any other page change touches nothing but the page. */
  lemma SetPageOtherEffect(s: GameState, p: GamePage)
    requires p != Level1
    ensures Reduce(s, SetPage(p)) == s.(currentPage := p)
  {
  }

  /** `SET_SYSTEM_STATUS` changes one subsystem's status and nothing else. */
  lemma SetSystemStatusEffect(s: GameState, k: SystemKey, st: SystemStatus)
    ensures var r := Reduce(s, SetSystemStatus(k, st));
      && r.System(k).status == st
      && r.System(k).value == s.System(k).value
      && r.System(k).name == s.System(k).name
      && (forall j :: j != k ==> r.System(j) == s.System(j))
      && AgreeOutsideSystems(s, r)
  {
  }

  /** `UPDATE_METRIC` overwrites one metric; only oxygen below 85 moves the crew status. */
  lemma UpdateMetricEffect(s: GameState, m: Metric, v: int)
    ensures var r := Reduce(s, UpdateMetric(m, v));
      && r.MetricValue(m) == v
      && (forall n :: n != m ==> r.MetricValue(n) == s.MetricValue(n))
      && (m == OxygenLevel && v < 70 ==> r.crewStatus == Red)
      && (m == OxygenLevel && 70 <= v < 85 ==> r.crewStatus == Yellow)
      && (m != OxygenLevel || v >= 85 ==> r.crewStatus == s.crewStatus)
      && AgreeOutsideMetrics(s, r)
  {
  }

  /** The oxygen rule never restores a green crew status. */
  lemma UpdateMetricNeverRestoresGreen(s: GameState, m: Metric, v: int)
    ensures Reduce(s, UpdateMetric(m, v)).crewStatus == Green ==> s.crewStatus == Green
  {
  }

  lemma OxygenThresholdExamples(s: GameState)
    ensures Reduce(s, UpdateMetric(OxygenLevel, 60)).crewStatus == Red
    ensures Reduce(s, UpdateMetric(OxygenLevel, 80)).crewStatus == Yellow
    ensures Reduce(s, UpdateMetric(OxygenLevel, 95)).crewStatus == s.crewStatus
  {
  }

  lemma OverwriteEffects(s: GameState, c: CrewStatus, msg: AiMessage)
    ensures Reduce(s, SetCrewStatus(c)) == s.(crewStatus := c)
    ensures Reduce(s, SetAiMessage(msg)) == s.(aiMessage := msg)
  {
  }

  /** `MAKE_DECISION` counts one decision, and one correct decision iff `correct`. */
  lemma MakeDecisionEffect(s: GameState, correct: bool)
    ensures var r := Reduce(s, MakeDecision(correct));
      && r.totalDecisions == s.totalDecisions + 1
      && (r.correctDecisions == s.correctDecisions + 1 <==> correct)
      && (r.correctDecisions == s.correctDecisions <==> !correct)
      && r == s.(correctDecisions := r.correctDecisions, totalDecisions := r.totalDecisions)
  {
  }

  /** `NEXT_INCIDENT` advances both incident counters by one, unbounded. */
  lemma NextIncidentEffect(s: GameState)
    ensures var r := Reduce(s, NextIncident);
      && r.currentIncident == s.currentIncident + 1
      && r.incidentsCompleted == s.incidentsCompleted + 1
      && r == s.(currentIncident := r.currentIncident, incidentsCompleted := r.incidentsCompleted)
  {
  }

  lemma ActivateSafeModeEffect(s: GameState)
    ensures Reduce(s, ActivateSafeMode) == s.(safeModeActivated := true)
  {
  }

  /** `RESET_GAME` from any state gives exactly the initial state. */
  lemma ResetGameEffect(s: GameState)
    ensures Reduce(s, ResetGame) == InitialState
  {
  }

  // ---------------------------------------------------------------------
  // Playthroughs

  lemma {:induction false} RunAppend(s: GameState, xs: seq<GameAction>, ys: seq<GameAction>)
    ensures Run(s, xs + ys) == Run(Run(s, xs), ys)
    decreases |xs|
  {
    if |xs| == 0 {
      assert xs + ys == ys;
    } else {
      assert (xs + ys)[1..] == xs[1..] + ys;
      RunAppend(Reduce(s, xs[0]), xs[1..], ys);
    }
  }

  lemma RunSingle(s: GameState, a: GameAction)
    ensures Run(s, [a]) == Reduce(s, a)
  {
    assert [a][1..] == [];
  }

  /** Every playthrough keeps the correct count within the total. */
  lemma {:induction false} RunScoreConsistent(s: GameState, acts: seq<GameAction>)
    requires ScoreConsistent(s)
    ensures ScoreConsistent(Run(s, acts))
    decreases |acts|
  {
    if |acts| > 0 {
      RunScoreConsistent(Reduce(s, acts[0]), acts[1..]);
    }
  }

  /** Every state reachable from the initial state is score-consistent. */
  lemma ReachableScoreConsistent(acts: seq<GameAction>)
    ensures Run(InitialState, acts).correctDecisions <= Run(InitialState, acts).totalDecisions
  {
    RunScoreConsistent(InitialState, acts);
  }

  /** Without a reset, no progress counter ever goes down. */
  lemma {:induction false} RunCountersNonDecreasing(s: GameState, acts: seq<GameAction>)
    requires ResetGame !in acts
    ensures CountersNonDecreasing(s, Run(s, acts))
    decreases |acts|
  {
    if |acts| > 0 {
      assert acts[0] in acts;
      assert forall a :: a in acts[1..] ==> a in acts;
      RunCountersNonDecreasing(Reduce(s, acts[0]), acts[1..]);
    }
  }

  /** Safe mode is a latch: without a reset it stays on. */
  lemma {:induction false} RunSafeModeLatch(s: GameState, acts: seq<GameAction>)
    requires s.safeModeActivated && ResetGame !in acts
    ensures Run(s, acts).safeModeActivated
    decreases |acts|
  {
    if |acts| > 0 {
      assert acts[0] in acts;
      assert forall a :: a in acts[1..] ==> a in acts;
      RunSafeModeLatch(Reduce(s, acts[0]), acts[1..]);
    }
  }

  /** Only `ACTIVATE_SAFE_MODE` can turn safe mode on. */
  lemma {:induction false} RunSafeModeCause(s: GameState, acts: seq<GameAction>)
    requires !s.safeModeActivated && Run(s, acts).safeModeActivated
    ensures ActivateSafeMode in acts
    decreases |acts|
  {
    if |acts| > 0 && acts[0] != ActivateSafeMode {
      RunSafeModeCause(Reduce(s, acts[0]), acts[1..]);
      assert acts == [acts[0]] + acts[1..];
    }
  }

  /**
   * The state cell behind the game's dispatch surface: `Dispatch` replaces the
   * state with the reducer's result. `history` records every dispatched action,
   * so the current state is always the playthrough of that history.
   */
  class GameStore {
    var state: GameState
    ghost var history: seq<GameAction>

    ghost predicate Valid()
      reads this
    {
      state == Run(InitialState, history)
    }

    constructor ()
      ensures Valid() && history == [] && state == InitialState
    {
      state := InitialState;
      history := [];
    }

    method Dispatch(a: GameAction)
      requires Valid()
      modifies this
      ensures Valid()
      ensures history == old(history) + [a]
      ensures state == Reduce(old(state), a)
    {
      RunAppend(InitialState, history, [a]);
      RunSingle(state, a);
      state := Reduce(state, a);
      history := history + [a];
    }
  }
}
