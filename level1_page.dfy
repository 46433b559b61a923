/**
 * The system-activation page: five local activation flags, the toggle handler
 * that mirrors each flag into the reducer's subsystem status, and the
 * "Start Mission" handler offered once every system is active.
 */
module Level1Page {
  import opened GameContext

  /** The page's local `systemsActivated` record. */
  datatype Flags = Flags(
    lifeSupport: bool,
    powerSystems: bool,
    thermalControl: bool,
    attitudeControl: bool,
    communications: bool)
  {
    function Get(k: SystemKey): bool {
      match k
      case LifeSupport => lifeSupport
      case PowerSystems => powerSystems
      case ThermalControl => thermalControl
      case AttitudeControl => attitudeControl
      case Communications => communications
    }

    /** `{ ...flags, [k]: !flags[k] }`. */
    function Toggle(k: SystemKey): (r: Flags)
      ensures r.Get(k) == !Get(k)
      ensures forall j :: j != k ==> r.Get(j) == Get(j)
    {
      match k
      case LifeSupport => this.(lifeSupport := !lifeSupport)
      case PowerSystems => this.(powerSystems := !powerSystems)
      case ThermalControl => this.(thermalControl := !thermalControl)
      case AttitudeControl => this.(attitudeControl := !attitudeControl)
      case Communications => this.(communications := !communications)
    }

    /** `Object.values(flags).every(Boolean)`. */
    predicate AllActive() {
      lifeSupport && powerSystems && thermalControl && attitudeControl && communications
    }

    /** `Object.values(flags).filter(Boolean).length`. */
    function ActiveCount(): (n: nat)
      ensures n <= 5
      ensures n == 5 <==> AllActive()
      ensures n == 0 <==> forall k :: !Get(k)
    {
      var n := (if lifeSupport then 1 else 0) + (if powerSystems then 1 else 0) + (if thermalControl then 1 else 0)
        + (if attitudeControl then 1 else 0) + (if communications then 1 else 0);
      assert n != 0 ==> (Get(LifeSupport) || Get(PowerSystems) || Get(ThermalControl)
                         || Get(AttitudeControl) || Get(Communications));
      n
    }
  }

  const NoneActive := Flags(false, false, false, false, false)

  lemma AllActiveIffEveryFlag(f: Flags)
    ensures f.AllActive() <==> forall k :: f.Get(k)
  {
    if !f.AllActive() {
      assert !f.Get(LifeSupport) || !f.Get(PowerSystems) || !f.Get(ThermalControl)
        || !f.Get(AttitudeControl) || !f.Get(Communications);
    }
  }

  /** A toggle moves the active count by exactly one: down when the flag was on, up when it was off. */
  lemma ToggleMovesCount(f: Flags, k: SystemKey)
    ensures f.Toggle(k).ActiveCount() == if f.Get(k) then f.ActiveCount() - 1 else f.ActiveCount() + 1
  {
  }

  /** From all off, the active count is the number of distinct systems switched on. */
  lemma CountAfterSwitchingOn(ks: seq<SystemKey>)
    requires forall i, j :: 0 <= i < j < |ks| ==> ks[i] != ks[j]
    ensures SwitchedOn(NoneActive, ks).ActiveCount() == |ks|
  {
    SwitchOnCount(NoneActive, ks);
  }

  /** Toggles `ks` in order. */
  function SwitchedOn(f: Flags, ks: seq<SystemKey>): Flags
    decreases |ks|
  {
    if |ks| == 0 then f else SwitchedOn(f.Toggle(ks[0]), ks[1..])
  }

  /** Switching on distinct systems that are all off adds one to the count per system. */
  lemma {:induction false} SwitchOnCount(f: Flags, ks: seq<SystemKey>)
    requires forall i, j :: 0 <= i < j < |ks| ==> ks[i] != ks[j]
    requires forall i :: 0 <= i < |ks| ==> !f.Get(ks[i])
    ensures SwitchedOn(f, ks).ActiveCount() == f.ActiveCount() + |ks|
    ensures forall k :: SwitchedOn(f, ks).Get(k) <==> f.Get(k) || k in ks
    decreases |ks|
  {
    if |ks| > 0 {
      var g := f.Toggle(ks[0]);
      ToggleMovesCount(f, ks[0]);
      assert forall i :: 0 <= i < |ks[1..]| ==> ks[1..][i] == ks[i + 1];
      SwitchOnCount(g, ks[1..]);
      forall k
        ensures SwitchedOn(f, ks).Get(k) <==> f.Get(k) || k in ks
      {
        assert k in ks <==> k == ks[0] || k in ks[1..];
      }
    }
  }

  /** Toggling the same system twice restores the flags. */
  lemma ToggleTwice(f: Flags, k: SystemKey)
    ensures f.Toggle(k).Toggle(k) == f
  {
  }

  /** The status a toggle dispatches for a flag's new value. */
  function StatusFor(on: bool): (st: SystemStatus)
    ensures st == Nominal <==> on
    ensures st == Standby <==> !on
  {
    if on then Nominal else Standby
  }

  /** The message actions a toggle dispatches after the status update. */
  function ActivationMessage(activeCount: nat): (acts: seq<GameAction>)
    ensures activeCount == 0 <==> acts == []
    ensures activeCount == 5 ==> acts == [SetAiMessage(AllSystemsNominal)]
    ensures 0 < activeCount != 5 ==> acts == [SetAiMessage(SystemsActive(activeCount))]
  {
    if activeCount == 5 then [SetAiMessage(AllSystemsNominal)]
    else if activeCount > 0 then [SetAiMessage(SystemsActive(activeCount))]
    else []
  }

  /** The message the station shows after a toggle leaves `activeCount` systems on. */
  function MessageAfterToggle(prior: AiMessage, activeCount: nat): AiMessage {
    if activeCount == 5 then AllSystemsNominal
    else if activeCount > 0 then SystemsActive(activeCount)
    else prior
  }

  lemma ActivationMessageEffect(s: GameState, activeCount: nat)
    ensures Run(s, ActivationMessage(activeCount)) == s.(aiMessage := MessageAfterToggle(s.aiMessage, activeCount))
  {
    if activeCount > 0 {
      RunSingle(s, ActivationMessage(activeCount)[0]);
    }
  }

  /** Every subsystem status in `s` shows whether its flag is on. */
  predicate StatusesMirror(s: GameState, f: Flags) {
    forall k :: s.System(k).status == StatusFor(f.Get(k))
  }

  /** Right after entering the control room every status mirrors the all-off flags. */
  lemma EntryMirrorsNoneActive(s: GameState)
    ensures StatusesMirror(Reduce(s, SetPage(Level1)), NoneActive)
  {
    SetPageLevel1Effect(s);
  }

  /** `s` and `t` agree on the page, the four progress counters and the safe-mode flag. */
  predicate SameProgress(s: GameState, t: GameState) {
    && s.currentPage == t.currentPage
    && s.currentIncident == t.currentIncident && s.incidentsCompleted == t.incidentsCompleted
    && s.correctDecisions == t.correctDecisions && s.totalDecisions == t.totalDecisions
    && s.safeModeActivated == t.safeModeActivated
  }

  /** The reducer state after toggling system `k` from flags `f` in state `s`. */
  function AfterToggle(s: GameState, f: Flags, k: SystemKey): GameState {
    s.WithSystem(k, s.System(k).(status := StatusFor(f.Toggle(k).Get(k))))
     .(aiMessage := MessageAfterToggle(s.aiMessage, f.Toggle(k).ActiveCount()))
  }

  /** The toggle's dispatches take the reducer exactly to `AfterToggle`. */
  lemma ToggleDispatchEffect(s: GameState, f: Flags, k: SystemKey)
    ensures var t := f.Toggle(k);
      Run(s, [SetSystemStatus(k, StatusFor(t.Get(k)))] + ActivationMessage(t.ActiveCount())) == AfterToggle(s, f, k)
  {
    var t := f.Toggle(k);
    var first := SetSystemStatus(k, StatusFor(t.Get(k)));
    RunAppend(s, [first], ActivationMessage(t.ActiveCount()));
    RunSingle(s, first);
    ActivationMessageEffect(Reduce(s, first), t.ActiveCount());
  }

  /** A toggle changes only system `k`'s status among the subsystems, and keeps the mirror. */
  lemma AfterToggleSystems(s: GameState, f: Flags, k: SystemKey)
    ensures AfterToggle(s, f, k).System(k) == s.System(k).(status := StatusFor(f.Toggle(k).Get(k)))
    ensures forall j :: j != k ==> AfterToggle(s, f, k).System(j) == s.System(j)
    ensures StatusesMirror(s, f) ==> StatusesMirror(AfterToggle(s, f, k), f.Toggle(k))
    ensures SameProgress(s, AfterToggle(s, f, k))
  {
    var r := AfterToggle(s, f, k);
    var w := s.WithSystem(k, s.System(k).(status := StatusFor(f.Toggle(k).Get(k))));
    assert forall j :: r.System(j) == w.System(j);
  }

  class SystemActivation {
    const store: GameStore
    var systemsActivated: Flags

    ghost predicate Valid()
      reads this, store
    {
      store.Valid()
    }

    /** The reducer's subsystem statuses mirror the local flags. */
    ghost predicate Mirrors()
      reads this, store
    {
      StatusesMirror(store.state, systemsActivated)
    }

    /** The router shows this page only while the reducer's page is the control room. */
    predicate Mounted()
      reads this, store
    {
      store.state.currentPage == Level1
    }

    /** The page as it mounts: every flag off. */
    constructor (store: GameStore)
      requires store.Valid() && store.state.currentPage == Level1
      ensures Valid() && Mounted() && this.store == store && systemsActivated == NoneActive
      ensures Mirrors() <==> forall k :: store.state.System(k).status == Standby
    {
      this.store := store;
      systemsActivated := NoneActive;
    }

    /** "Start Mission" is offered exactly when every system is active. */
    function StartMissionOffered(): (offered: bool)
      reads this
      ensures offered <==> forall k :: systemsActivated.Get(k)
    {
      AllActiveIffEveryFlag(systemsActivated);
      systemsActivated.AllActive()
    }

    method ToggleSystem(k: SystemKey)
      requires Valid() && Mounted()
      modifies this, store
      ensures Valid() && Mounted()
      ensures systemsActivated == old(systemsActivated).Toggle(k)
      ensures store.history == old(store.history)
                + [SetSystemStatus(k, StatusFor(systemsActivated.Get(k)))]
                + ActivationMessage(systemsActivated.ActiveCount())
      ensures store.state == AfterToggle(old(store.state), old(systemsActivated), k)
      ensures store.state.System(k).status == StatusFor(systemsActivated.Get(k))
      ensures forall j :: j != k ==> store.state.System(j) == old(store.state).System(j)
      ensures old(Mirrors()) ==> Mirrors()
      ensures SameProgress(old(store.state), store.state)
    {
      ghost var s0, f0, h0 := store.state, systemsActivated, store.history;
      var newState := systemsActivated.Toggle(k);
      systemsActivated := newState;
      var newStatus := if newState.Get(k) then Nominal else Standby;
      store.Dispatch(SetSystemStatus(k, newStatus));
      var activeCount := newState.ActiveCount();
      if activeCount == 5 {
        store.Dispatch(SetAiMessage(AllSystemsNominal));
      } else if activeCount > 0 {
        store.Dispatch(SetAiMessage(SystemsActive(activeCount)));
      }
      RunAppend(InitialState, h0, store.history[|h0|..]);
      assert h0 + store.history[|h0|..] == store.history;
      ToggleDispatchEffect(s0, f0, k);
      AfterToggleSystems(s0, f0, k);
    }

    method HandleBeginIncidents()
      requires Valid() && Mounted() && StartMissionOffered()
      modifies store
      ensures Valid() && PageStep(old(store.state.currentPage), store.state.currentPage)
      ensures store.history == old(store.history) + [SetAiMessage(AnomaliesDetected), SetPage(Level2)]
      ensures store.state == old(store.state).(aiMessage := AnomaliesDetected, currentPage := Level2)
    {
      store.Dispatch(SetAiMessage(AnomaliesDetected));
      store.Dispatch(SetPage(Level2));
    }
  }
}
