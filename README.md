# Orbital Command: a verified model of the game's state machine

Orbital Command is a browser training game about running a space station. The
player goes through four pages in order:

- the intro;
- the control room, where five subsystems are switched on;
- an incident-response page with four incidents of three choices each;
- an outcome page that scores the decisions.

All game state is one record. The only way to change it is a reducer over nine
action kinds. The pages keep some local state and dispatch fixed sequences of
actions. The outcome page computes its summary from the final record.

This project models that logic in Dafny and proves what the game relies on.

- `GameContext` (`game_context.dfy`) holds the record, the actions, the initial
  state and the reducer `Reduce`. It also holds the fold `Run`, which plays a
  list of actions, and `GameStore`, the cell that applies each dispatch in turn.
  Every `GameStore` keeps the invariant that its state is the playthrough of
  its dispatch history.
- `OutcomePage` (`outcome_page.dfy`) holds the success rate, success flag,
  crew-safety percentage, verdict, stability label and the restart handler.
- `Level1Page` (`level1_page.dfy`) holds the five activation flags and the
  `SystemActivation` controller: toggling a system, and "Start Mission".
- `Level2Page` (`level2_page.dfy`) holds the incident catalogue and the
  `IncidentResponse` controller: choose, reaction done, next, safe mode. Its
  class invariant couples the page's local state to the reducer's counters:
  - every answered slot is one decision;
  - every correct slot is one correct decision;
  - the local incident index moves in step with the reducer's incident
    counters.
- `IncidentCard` (`incident_card.dfy`) holds the card's click gate and what it
  shows for each choice.
- `QAShip` (`qa_ship.dfy`) holds the ship graphic's idle/correct/wrong
  classification and its label.
- `Playthrough` (`playthrough.dfy`) composes the pages as the router mounts
  them. It includes whole games with their proved outcomes.

Modelling choices:

- A subsystem's `label` field is called `name`, because `label` is a Dafny
  keyword.
- AI messages are a datatype with one constructor per fixed text.
  `SystemsActive(n)` stands for the "n/5 systems active" template.
- The incident catalogue refers to its wording through `TextKey`. The exact
  titles, alerts, lessons, choice texts and consequences are kept in
  `Level2Page.Wording`.
- The source's JavaScript `number` fields become the following:
  - the metrics are `int`;
  - the four progress counters are `nat`, since the reducer only ever adds to
    them or resets them to 0.
- `Math.round(c / t * 100)` for non-negative operands is exact half-up
  rounding, which is `(200c + t) / (2t)` in integer division.
- Rendering conditions become preconditions of the handlers they guard. "Next"
  and "Safe Mode" are only rendered once the current incident is answered, and
  "Start Mission" only once all systems are on. The card's
  `selectedChoice === null &&` guard is the method `ClickChoice`.
- The router in `src/pages/Index.tsx:10-18` mounts each page only while the
  reducer's `currentPage` names it. Every page controller therefore requires
  its page (`Mounted()`), and every handler that changes the page ensures
  `GameContext.PageStep`: the page stays or takes one step along
  intro → control room → incidents → outcome → intro.

## Model

| member | source | states |
|---|---|---|
| GameContext.GameState.WithSystem | src/contexts/GameContext.tsx:88-92 | writing subsystem `k` sets exactly that subsystem; the other four and every non-subsystem field are unchanged |
| GameContext.GameState.WithMetric | src/contexts/GameContext.tsx:95 | writing metric `m` sets exactly that metric; the other three metrics, the crew status and all other fields are unchanged |
| GameContext.Reduce | src/contexts/GameContext.tsx:71-131 | every action preserves `correctDecisions <= totalDecisions`; every action but `RESET_GAME` keeps the four counters non-decreasing and keeps safe mode on; only `ACTIVATE_SAFE_MODE` turns safe mode on; only `SET_CREW_STATUS` or `RESET_GAME` restores a green crew |
| GameContext.InitialStateValues | src/contexts/GameContext.tsx:51-69 | the initial state: intro page, five standby subsystems at value 100, green crew, all counters 0, safe mode off, the awaiting-activation message |
| GameContext.SetPageLevel1Effect | src/contexts/GameContext.tsx:73-85 | entering the control room sets the page and the activation prompt, sets every subsystem to standby keeping its value and name, and changes nothing else |
| GameContext.SetPageOtherEffect | src/contexts/GameContext.tsx:86 | any other page change changes only `currentPage` |
| GameContext.SetSystemStatusEffect | src/contexts/GameContext.tsx:88-92 | only subsystem `k`'s status changes; its value and name and the other four subsystems are kept |
| GameContext.UpdateMetricEffect | src/contexts/GameContext.tsx:94-100 | the named metric is set and the others kept; oxygen below 70 gives red, 70 to 84 gives yellow, and otherwise the crew status is kept; nothing else changes |
| GameContext.UpdateMetricNeverRestoresGreen | src/contexts/GameContext.tsx:97-99 | a metric update never turns a non-green crew green |
| GameContext.OxygenThresholdExamples | src/contexts/GameContext.tsx:97-98 | oxygen 60 gives red, 80 gives yellow, 95 leaves the crew status as it was |
| GameContext.OverwriteEffects | src/contexts/GameContext.tsx:102-123 | `SET_CREW_STATUS` and `SET_AI_MESSAGE` overwrite only their own field |
| GameContext.MakeDecisionEffect | src/contexts/GameContext.tsx:105-110 | one more decision, one more correct decision iff `correct`, nothing else changes |
| GameContext.NextIncidentEffect | src/contexts/GameContext.tsx:112-117 | both incident counters go up by exactly one, with no bound; nothing else changes |
| GameContext.ActivateSafeModeEffect | src/contexts/GameContext.tsx:119-120 | sets only the safe-mode flag |
| GameContext.ResetGameEffect | src/contexts/GameContext.tsx:125-126 | from any state the result is exactly the initial state |
| GameContext.CrewAfterMetric | src/contexts/GameContext.tsx:97-99 | a non-oxygen metric, or oxygen of at least 85, keeps the crew status; oxygen below 70 gives red and 70 to 84 gives yellow; the result is green only if the prior status was |
| GameContext.Run | src/contexts/GameContext.tsx:139 | the `useReducer` cell's state after a list of dispatches: the reducer folded over them from left to right |
| GameContext.RunAppend | src/contexts/GameContext.tsx:71-131 | playing `xs + ys` is playing `xs` and then `ys` |
| GameContext.RunSingle | src/contexts/GameContext.tsx:71-131 | playing one action is one reducer step |
| GameContext.RunScoreConsistent | src/contexts/GameContext.tsx:105-126 | every playthrough from a score-consistent state stays score-consistent |
| GameContext.ReachableScoreConsistent | src/contexts/GameContext.tsx:63-110 | every state reachable from the initial state has `correctDecisions <= totalDecisions` |
| GameContext.RunCountersNonDecreasing | src/contexts/GameContext.tsx:105-117 | a playthrough without `RESET_GAME` never decreases a progress counter |
| GameContext.RunSafeModeLatch | src/contexts/GameContext.tsx:119-126 | once on, safe mode stays on throughout any playthrough without `RESET_GAME` |
| GameContext.RunSafeModeCause | src/contexts/GameContext.tsx:119-120 | if a playthrough turns safe mode on, it contains `ACTIVATE_SAFE_MODE` |
| GameContext.GameStore.constructor | src/contexts/GameContext.tsx:51-69 | the cell starts with the initial state and an empty history |
| GameContext.GameStore.Dispatch | src/contexts/GameContext.tsx:71-72 | the new state is the reducer applied to the old state; the history grows by that action; the state stays the playthrough of the history |
| OutcomePage.SuccessRate | src/pages/OutcomePage.tsx:8-10 | 0 without decisions; otherwise the integer nearest to `100c/t`, halves rounded up, characterised by `2t·r <= 200c + t < 2t·(r+1)`; at most 100 when `c <= t` |
| OutcomePage.IsSuccess | src/pages/OutcomePage.tsx:12 | false under safe mode; otherwise true iff the rate is at least 50 |
| OutcomePage.CrewSafetyPercent | src/pages/OutcomePage.tsx:13 | always 70, 85 or 100; 100 under safe mode; otherwise 100 iff rate ≥ 75, 85 iff 50 ≤ rate < 75, 70 iff rate < 50 |
| OutcomePage.Score | src/pages/OutcomePage.tsx:8-13 | the summary combines the three derived values; for a score-consistent state the rate is at most 100 |
| OutcomePage.VerdictOf | src/pages/OutcomePage.tsx:86-103 | safe mode takes precedence, then success, then "requires review", each as an if-and-only-if (the same order picks the card border at line 50) |
| OutcomePage.StabilityOf | src/pages/OutcomePage.tsx:134-135 | "Excellent" iff the game was a success |
| OutcomePage.ScoreDeterminedByCounters | src/pages/OutcomePage.tsx:8-13 | the summary, verdict and stability depend only on the two decision counters and the safe-mode flag |
| OutcomePage.ScoreExamples | src/pages/OutcomePage.tsx:8-13 | 4/4 gives 100, success, safety 100; 0/1 under safe mode gives 0, failure, safety 100; 2/4 gives 50, success, safety 85 |
| OutcomePage.AllCorrectScenario | src/pages/OutcomePage.tsx:8-13 | four correct decisions with three advances score 100, success, safety 100 |
| OutcomePage.WrongThenSafeModeScenario | src/pages/OutcomePage.tsx:8-13 | one wrong decision and then safe mode give 0, failure, safety 100, and the safe-mode verdict |
| OutcomePage.HandleRestart | src/pages/OutcomePage.tsx:15-17 | mounted only on the outcome page; restart dispatches exactly `RESET_GAME`, which brings back the initial state and the intro page, one step along the page path |
| IncidentCard.RenderChoices | src/components/game/IncidentCard.tsx:55-98 | one view per choice; each is enabled iff nothing is selected; dimmed iff another choice is selected; consequence and icon only on the selected choice; the icon follows that choice's correctness |
| IncidentCard.ClickFires | src/components/game/IncidentCard.tsx:58 | a click reaches `onChoiceSelect` iff no choice is selected |
| IncidentCard.LessonShown | src/components/game/IncidentCard.tsx:101 | the lesson panel is shown iff a choice is selected |
| IncidentCard.ViewOf | src/components/game/IncidentCard.tsx:55-98 | one button is enabled iff a click fires; dimmed iff another choice is selected; shows an icon and its own consequence iff it is the selected one, the icon a check iff the choice is correct |
| IncidentCard.RenderCard | src/components/game/IncidentCard.tsx:55-110 | the card's buttons are `RenderChoices`; the lesson panel shows the incident's lesson iff a choice is selected, which for a non-empty card is iff every button is disabled |
| IncidentCard.DimmedExactlyOthers | src/components/game/IncidentCard.tsx:63-67 | with no selection no choice is dimmed; with a selection exactly the other choices are dimmed, and only the selected one shows its consequence |
| QAShip.IsIdle | src/components/game/QAShip.tsx:25 | idle: nothing selected and no live reaction |
| QAShip.IsCorrect | src/components/game/QAShip.tsx:26 | correct: a correct live reaction, or a correct selection with no reaction |
| QAShip.IsWrong | src/components/game/QAShip.tsx:27 | wrong: a wrong live reaction, or a wrong selection with no reaction |
| QAShip.LabelOf | src/components/game/QAShip.tsx:130 | "Nominal" iff correct, "Critical" iff wrong, "Alert" when idle |
| QAShip.ClassesDisjoint | src/components/game/QAShip.tsx:25-27 | correct and wrong never hold together; idle excludes both |
| QAShip.ReactionDecides | src/components/game/QAShip.tsx:26-27 | a live reaction alone decides correct or wrong; without one, and with a selection, `selectedWasCorrect` decides |
| QAShip.ClassifiedWhenKnown | src/components/game/QAShip.tsx:25-27 | when correctness is known exactly when a selection exists, the input is idle, correct or wrong |
| QAShip.UnknownCorrectnessFallsThrough | src/components/game/QAShip.tsx:25-27 | a selection with no reaction and unknown correctness is in no class, so the label at line 130 reads "Alert" |
| Level1Page.Flags.Toggle | src/pages/Level1Page.tsx:24 | flips exactly the named flag and keeps the other four |
| Level1Page.Flags.AllActive | src/pages/Level1Page.tsx:21 | `allSystemsActive`: every one of the five flags is on |
| Level1Page.Flags.ActiveCount | src/pages/Level1Page.tsx:35 | the count is at most 5; it is 5 iff all flags are on and 0 iff none is |
| Level1Page.ToggleMovesCount | src/pages/Level1Page.tsx:24-35 | a toggle lowers the active count by one when the flag was on and raises it by one when it was off |
| Level1Page.SwitchOnCount | src/pages/Level1Page.tsx:24-35 | switching on distinct systems that are off raises the count by their number and turns on exactly those flags |
| Level1Page.CountAfterSwitchingOn | src/pages/Level1Page.tsx:35-39 | from all off, the count behind "n/5 systems active" is the number of distinct systems switched on |
| Level1Page.AllActiveIffEveryFlag | src/pages/Level1Page.tsx:21 | "all systems active" holds iff every flag is on |
| Level1Page.ToggleTwice | src/pages/Level1Page.tsx:24 | toggling the same system twice restores the flags |
| Level1Page.StatusFor | src/pages/Level1Page.tsx:27 | the dispatched status is nominal iff the new flag is on, otherwise standby |
| Level1Page.ActivationMessage | src/pages/Level1Page.tsx:35-40 | no message for 0 active, the all-nominal message for 5, and the count message otherwise |
| Level1Page.ActivationMessageEffect | src/pages/Level1Page.tsx:35-40 | those dispatches change only the AI message, which keeps its old value when nothing is active |
| Level1Page.EntryMirrorsNoneActive | src/pages/Level1Page.tsx:13-19 | right after `SET_PAGE('level1')`, every subsystem status mirrors its all-off flag |
| Level1Page.ToggleDispatchEffect | src/pages/Level1Page.tsx:23-41 | the toggle's dispatches take the reducer exactly to `AfterToggle` |
| Level1Page.AfterToggleSystems | src/pages/Level1Page.tsx:27-32 | a toggle changes only the named subsystem's status and keeps every status mirroring its flag |
| Level1Page.SystemActivation.constructor | src/pages/Level1Page.tsx:13-19 | mounted only on the control-room page; the page mounts with every flag off; the statuses mirror the flags iff all are standby |
| Level1Page.SystemActivation.StartMissionOffered | src/pages/Level1Page.tsx:142 | "Start Mission" is offered iff all five flags are on (`allSystemsActive`, line 21) |
| Level1Page.SystemActivation.ToggleSystem | src/pages/Level1Page.tsx:23-41 | flips one flag; dispatches the matching status and then the message for the new active count; only that subsystem changes; the mirror is kept |
| Level1Page.SystemActivation.HandleBeginIncidents | src/pages/Level1Page.tsx:43-46 | offered only with every system on (line 142); dispatches the alert message and then `SET_PAGE('level2')`; the message survives the page change; the page steps from the control room to the incidents |
| Level2Page.MakeIncident | src/pages/Level2Page.tsx:24-117 | an incident with the given id and one choice per correctness tag, in order |
| Level2Page.Incidents | src/pages/Level2Page.tsx:24-117 | exactly four incidents with ids 1 to 4, each with three choices: the first two correct and the third incorrect |
| Level2Page.Wording | src/pages/Level2Page.tsx:24-117 | the exact title, alert, lesson, choice texts and consequences of the four incidents, by key |
| Level2Page.Answered | src/pages/Level2Page.tsx:122 | at most one answer per slot |
| Level2Page.CorrectAnswered | src/pages/Level2Page.tsx:122 | no more correct answers than answers |
| Level2Page.NoneAnswered | src/pages/Level2Page.tsx:122 | the all-null selection record has no answers and no correct answers |
| Level2Page.AllAnswered | src/pages/Level2Page.tsx:122 | a record with every slot filled counts every slot |
| Level2Page.AnswerSlot | src/pages/Level2Page.tsx:129-132 | filling an open slot adds exactly one answer, and one correct answer iff the choice is correct |
| Level2Page.AnsweredFrontier | src/pages/Level2Page.tsx:237 | with slots before the index filled and slots after it open, the answers are the index plus the current slot |
| Level2Page.AnswerKeepsCoupling | src/pages/Level2Page.tsx:129-141 | answering the open current slot and recording that decision keeps local state and counters coupled |
| Level2Page.IncidentResponse.constructor | src/pages/Level2Page.tsx:120-122 | mounted only on the incident page; first incident, four empty slots, no reaction, coupled to the reducer's counters at mount |
| Level2Page.IncidentResponse.CurrentIncident | src/pages/Level2Page.tsx:125 | the incident on screen is catalogue entry `currentIncidentIndex`, with id one more, three choices, the first two correct |
| Level2Page.IncidentResponse.IsLastIncident | src/pages/Level2Page.tsx:126 | the fourth and last incident is on screen |
| Level2Page.IncidentResponse.HasSelectedChoice | src/pages/Level2Page.tsx:127 | the current incident's slot is filled |
| Level2Page.IncidentResponse.Card | src/pages/Level2Page.tsx:249-258 | the card on screen renders the current incident under the current slot; its lesson panel, showing that incident's lesson, is shown iff the incident is answered, iff every button is disabled |
| Level2Page.IncidentResponse.SelectedWasCorrect | src/pages/Level2Page.tsx:205-212 | known iff the current incident is answered, and then whether the chosen choice is correct |
| Level2Page.IncidentResponse.ProgressNumerator | src/pages/Level2Page.tsx:237 | the progress numerator is at most 4, equals the number of answered slots, and equals the decisions made on this page |
| Level2Page.IncidentResponse.FreshCoupling | src/pages/Level2Page.tsx:153-159 | on a fresh game the local index is the reducer's current incident and completed count, and the decision counters count the answered and correct slots |
| Level2Page.IncidentResponse.ShipAlwaysClassified | src/pages/Level2Page.tsx:205-212 | the ship shown on this page is always idle, correct or wrong |
| Level2Page.IncidentResponse.HandleChoiceSelect | src/pages/Level2Page.tsx:129-141 | writes only the current slot; sets the reaction; dispatches one `MAKE_DECISION` with the choice's correctness and then the matching message; keeps the coupling when the slot was open |
| Level2Page.IncidentResponse.ClickChoice | src/components/game/IncidentCard.tsx:58 | a click does nothing once the incident is answered, so answers are final; otherwise it selects that choice of the current incident and scores it |
| Level2Page.IncidentResponse.HandleReactionComplete | src/pages/Level2Page.tsx:144-146 | clears the reaction and nothing else |
| Level2Page.IncidentResponse.HandleNext | src/pages/Level2Page.tsx:153-160 | offered only once answered (line 263); on the last incident dispatches only `SET_PAGE('outcome')`, otherwise advances the index and dispatches `NEXT_INCIDENT` and the new-alert message; the page stays or steps to the outcome |
| Level2Page.IncidentResponse.HandleSafeMode | src/pages/Level2Page.tsx:163-166 | offered only once answered (line 263); dispatches `ACTIVATE_SAFE_MODE` and then `SET_PAGE('outcome')`, one step along the page path |
| Playthrough.EnterControlRoom | src/pages/IntroPage.tsx:134 | from the intro page only, dispatches `SET_PAGE('level1')`, one step along the page path, after which the statuses mirror the all-off flags |
| Playthrough.ReachIncidents | src/pages/Level1Page.tsx:23-46 | a fresh game through the control room with all five systems on reaches the incident page with every system nominal and all counters 0 |
| Playthrough.SwitchOnAll | src/pages/Level1Page.tsx:21-41 | switching on the five systems from all off leaves every flag on, "Start Mission" offered, every status nominal, and page, counters and safe mode unchanged |
| Playthrough.AnswerAndAdvance | src/pages/Level2Page.tsx:129-160 | one click and "Next" count one decision and either advance both incident counters or end on the outcome page |
| Playthrough.QuarterRates | src/pages/OutcomePage.tsx:8-10 | with four decisions the rate is 25 times the number correct |
| Playthrough.CorrectCount | src/pages/Level2Page.tsx:24-117 | the number of answers the catalogue tags correct is the number among the first two choices of their incident |
| Playthrough.FullPlaythrough | src/pages/Level2Page.tsx:153-160 | a whole game without safe mode ends on the outcome page with 4 decisions, 3 completed incidents, rate 25·n for n correct answers, success iff n ≥ 2, crew safety 100/85/70, and restart returns the initial state |
| Playthrough.SafeModePlaythrough | src/pages/Level2Page.tsx:163-166 | one answer and then safe mode end on the outcome page with safe mode on, the safe-mode verdict, failure and crew safety 100 |

## Left out

- Rendering, layout and animation are not modelled. The choice views keep only what they show.
- The 1200 ms reaction-overlay timer is not modelled; only its completion handler, `HandleReactionComplete`, is.
- The reaction sounds (Web Audio API and `setTimeout`) and the effect that plays them in `src/pages/Level2Page.tsx:148-151` are foreign calls and timers.
- The random star placement on the intro and outcome pages, and the intro's dialogs, are nondeterministic display.
- `GameProvider`/`useGame` and their error outside a provider are React plumbing; the router's switch on `currentPage` only picks a page to render.
- The reducer's `default: return state` branch has no counterpart: an action outside the nine kinds cannot be written in the typed model.
- The message strings are replaced by constructors of `AiMessage`; their wording and the `${activeCount}/5` string formatting are left out.
- Subsystem keys and metric keys are enumerations. The source's `system as any` cast cannot name anything else in the typed model.
- Metrics are unbounded integers; JavaScript floating point, including the float behind `Math.round(c / t * 100)` and the progress-bar percentage, is replaced by exact integer arithmetic.
- React's batched state updates are modelled as sequential statements. Each handler reads only state from before its own writes, so the order of effects is the same.
- The `compact` layout flag of the incident card, and its title and alert, which are always shown, are display only.
- `SystemPanel`, `AIPanel`, `StatusIndicator`, `DataReadout`, `StationDiagram` and `StationStatusFlash` are thin display mappings with no logic of their own.
