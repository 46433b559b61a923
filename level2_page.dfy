/**
 * The incident-response page: the fixed catalogue of incidents, the page's
 * local state (incident index, one selection slot per incident, the ship
 * reaction) and the handlers that drive the reducer. The class invariant
 * couples the local state to the reducer's counters: every answered slot is
 * one decision, every correct one a correct decision, and the local index
 * moves in step with the reducer's incident counters.
 */
module Level2Page {
  import opened Wrappers
  import opened GameContext
  import opened IncidentCard
  import opened QAShip

  /** Names the catalogue's wording; `Wording` gives the text itself. */
  datatype TextKey =
    | Title(incident: nat)
    | Alert(incident: nat)
    | Lesson(incident: nat)
    | ChoiceText(incident: nat, choice: nat)
    | Consequence(incident: nat, choice: nat)

  datatype Incident = Incident(id: nat, title: TextKey, alert: TextKey, lesson: TextKey, choices: seq<Choice<TextKey>>)

  /** Incident `id` with one choice per tag, in order. */
  function MakeIncident(id: nat, tags: seq<bool>): (inc: Incident)
    ensures inc.id == id && |inc.choices| == |tags|
    ensures forall i :: 0 <= i < |tags| ==> inc.choices[i].isCorrect == tags[i]
  {
    Incident(id, Title(id), Alert(id), Lesson(id),
      seq(|tags|, i requires 0 <= i < |tags| => Choice(ChoiceText(id, i), tags[i], Consequence(id, i))))
  }

  /** The four incidents, in the order they are played. */
  function Incidents(): (cat: seq<Incident>)
    ensures |cat| == 4
    ensures forall k :: 0 <= k < |cat| ==>
      && cat[k].id == k + 1
      && |cat[k].choices| == 3
      && cat[k].choices[0].isCorrect && cat[k].choices[1].isCorrect && !cat[k].choices[2].isCorrect
  {
    [ MakeIncident(1, [true, true, false]),
      MakeIncident(2, [true, true, false]),
      MakeIncident(3, [true, true, false]),
      MakeIncident(4, [true, true, false]) ]
  }

  /** The catalogue's text; keys outside the catalogue read as empty. */
  function Wording(key: TextKey): string {
    match key
    case Title(1) => "SOLAR PANEL MISALIGNMENT"
    case Alert(1) => "Power generation reduced by 25%. Solar array orientation drifting."
    case Lesson(1) => "Power management is proactive. Small corrections prevent cascade failures."
    case ChoiceText(1, 0) => "Reorient station gradually"
    case Consequence(1, 0) => "Station adjusts orientation smoothly. Power generation restored to 100%."
    case ChoiceText(1, 1) => "Switch to battery backup"
    case Consequence(1, 1) => "Battery reserves engaged. Provides time for proper solar realignment."
    case ChoiceText(1, 2) => "Ignore - power levels still acceptable"
    case Consequence(1, 2) => "Power continues to drop. Battery reserves depleted faster than expected."
    case Title(2) => "OXYGEN SCRUBBER FAULT"
    case Alert(2) => "CO₂ levels rising in Habitat Module. Primary scrubber offline."
    case Lesson(2) => "Life support is non-negotiable. Redundancy systems exist for a reason."
    case ChoiceText(2, 0) => "Activate backup scrubber immediately"
    case Consequence(2, 0) => "Backup scrubber online. CO₂ levels stabilizing. Crew safety maintained."
    case ChoiceText(2, 1) => "Reduce crew activity to lower CO₂ output"
    case Consequence(2, 1) => "Crew moves to low-activity protocol. Buys time for repairs."
    case ChoiceText(2, 2) => "Disable warning - levels are within tolerance"
    case Consequence(2, 2) => "CO₂ continues rising. Crew reports headaches and fatigue. Emergency protocols activated."
    case Title(3) => "THERMAL CONTROL FAILURE"
    case Alert(3) => "Temperature rising near electronics bay. Cooling loop pressure drop detected."
    case Lesson(3) => "Heat kills systems silently. Thermal management prevents cascading failures."
    case ChoiceText(3, 0) => "Reroute cooling through backup loop"
    case Consequence(3, 0) => "Secondary loop engaged. Temperature stabilizing. Electronics protected."
    case ChoiceText(3, 1) => "Reduce power load to generate less heat"
    case Consequence(3, 1) => "Non-essential systems powered down. Heat generation reduced significantly."
    case ChoiceText(3, 2) => "Increase system output to push through"
    case Consequence(3, 2) => "Electronics bay overheating. Multiple systems enter protective shutdown."
    case Title(4) => "ATTITUDE DRIFT"
    case Alert(4) => "Station orientation drifting off optimal axis. Solar efficiency dropping."
    case Lesson(4) => "Space rewards patience, not force. Gentle corrections are more efficient."
    case ChoiceText(4, 0) => "Apply small thruster correction"
    case Consequence(4, 0) => "Gentle thrust applied. Station returning to optimal orientation smoothly."
    case ChoiceText(4, 1) => "Allow passive correction using gyroscopes"
    case Consequence(4, 1) => "Gyroscopes compensating. Slower but fuel-efficient correction."
    case ChoiceText(4, 2) => "Full thrust to quickly realign"
    case Consequence(4, 2) => "Overcorrection! Station oscillating. More fuel spent on counter-corrections."
    case _ => ""
  }

  /** Slot `k` holds a choice of incident `k` that is tagged correct. */
  predicate IsCorrectSlot(k: nat, slot: Option<nat>) {
    && slot.Some?
    && k < |Incidents()|
    && slot.value < |Incidents()[k].choices|
    && Incidents()[k].choices[slot.value].isCorrect
  }

  /** The number of answered slots. */
  function Answered(sel: seq<Option<nat>>): (n: nat)
    ensures n <= |sel|
    decreases |sel|
  {
    if |sel| == 0 then 0
    else Answered(sel[..|sel| - 1]) + (if sel[|sel| - 1].Some? then 1 else 0)
  }

  /** The number of slots that hold a correct choice of their incident. */
  function CorrectAnswered(sel: seq<Option<nat>>): (n: nat)
    ensures n <= Answered(sel)
    decreases |sel|
  {
    if |sel| == 0 then 0
    else CorrectAnswered(sel[..|sel| - 1]) + (if IsCorrectSlot(|sel| - 1, sel[|sel| - 1]) then 1 else 0)
  }

  lemma {:induction false} NoneAnswered(sel: seq<Option<nat>>)
    requires forall k :: 0 <= k < |sel| ==> sel[k] == None
    ensures Answered(sel) == 0 && CorrectAnswered(sel) == 0
    decreases |sel|
  {
    if |sel| > 0 {
      NoneAnswered(sel[..|sel| - 1]);
    }
  }

  lemma {:induction false} AllAnswered(sel: seq<Option<nat>>)
    requires forall k :: 0 <= k < |sel| ==> sel[k].Some?
    ensures Answered(sel) == |sel|
    decreases |sel|
  {
    if |sel| > 0 {
      AllAnswered(sel[..|sel| - 1]);
    }
  }

  /** Answering an empty slot adds one answer, and one correct answer iff the choice is correct. */
  lemma {:induction false} AnswerSlot(sel: seq<Option<nat>>, k: nat, i: nat)
    requires k < |sel| && sel[k] == None
    ensures Answered(sel[k := Some(i)]) == Answered(sel) + 1
    ensures CorrectAnswered(sel[k := Some(i)]) == CorrectAnswered(sel) + (if IsCorrectSlot(k, Some(i)) then 1 else 0)
    decreases |sel|
  {
    var t := sel[k := Some(i)];
    var n := |sel|;
    if k == n - 1 {
      assert t[..n - 1] == sel[..n - 1];
    } else {
      assert t[..n - 1] == sel[..n - 1][k := Some(i)];
      AnswerSlot(sel[..n - 1], k, i);
    }
  }

  /** With every slot before `n` answered and every slot after it open, `n` slots plus slot `n` are answered. */
  lemma {:induction false} AnsweredFrontier(sel: seq<Option<nat>>, n: nat)
    requires n < |sel|
    requires forall k :: 0 <= k < n ==> sel[k].Some?
    requires forall k :: n < k < |sel| ==> sel[k] == None
    ensures Answered(sel) == n + (if sel[n].Some? then 1 else 0)
    decreases |sel|
  {
    if |sel| - 1 == n {
      AllAnswered(sel[..n]);
    } else {
      AnsweredFrontier(sel[..|sel| - 1], n);
    }
  }

  /** The reducer's counters when the incident page mounted. */
  datatype Base = Base(incident: nat, completed: nat, correct: nat, total: nat)

  /**
   * Slots before `index` are answered and slots after it are open; the
   * reducer's decision counters exceed `base` by the answered and the correct
   * slots, and its incident counters by `index`.
   */
  predicate Coupled(sel: seq<Option<nat>>, index: nat, st: GameState, base: Base) {
    && (forall k :: 0 <= k < index && k < |sel| ==> sel[k].Some?)
    && (forall k :: index < k < |sel| ==> sel[k] == None)
    && st.totalDecisions == base.total + Answered(sel)
    && st.correctDecisions == base.correct + CorrectAnswered(sel)
    && st.currentIncident == base.incident + index
    && st.incidentsCompleted == base.completed + index
  }

  /** Answering the open current slot and recording that decision keeps the coupling. */
  lemma AnswerKeepsCoupling(sel: seq<Option<nat>>, index: nat, st: GameState, base: Base, choice: nat, message: AiMessage)
    requires index < |sel| && sel[index] == None && Coupled(sel, index, st, base)
    ensures var correct := IsCorrectSlot(index, Some(choice));
      Coupled(sel[index := Some(choice)], index,
              st.(correctDecisions := st.correctDecisions + (if correct then 1 else 0),
                  totalDecisions := st.totalDecisions + 1,
                  aiMessage := message),
              base)
  {
    AnswerSlot(sel, index, choice);
  }

  class IncidentResponse {
    const store: GameStore
    var currentIncidentIndex: nat
    var selectedChoices: seq<Option<nat>>
    var shipReaction: Option<Reaction>
    // The reducer's counters when the page mounted.
    ghost const baseIncident: nat
    ghost const baseCompleted: nat
    ghost const baseCorrect: nat
    ghost const baseTotal: nat

    /** The local state's shape: one slot per incident, in-range index and choices. */
    ghost predicate WellFormed()
      reads this
    {
      && |selectedChoices| == |Incidents()|
      && currentIncidentIndex < |Incidents()|
      && forall k :: 0 <= k < |selectedChoices| && selectedChoices[k].Some? ==>
           selectedChoices[k].value < |Incidents()[k].choices|
    }

    ghost predicate Valid()
      reads this, store
    {
      && WellFormed()
      && store.Valid()
      && Coupled(selectedChoices, currentIncidentIndex, store.state, Base(baseIncident, baseCompleted, baseCorrect, baseTotal))
    }

    /** The page mounted on a fresh playthrough, with every reducer counter at zero. */
    ghost predicate StartedFresh()
      reads this
    {
      baseIncident == 0 && baseCompleted == 0 && baseCorrect == 0 && baseTotal == 0
    }

    /** The router shows this page only while the reducer's page is the incident page. */
    predicate Mounted()
      reads this, store
    {
      store.state.currentPage == Level2
    }

    /** The page as it mounts: first incident, every slot unanswered, no reaction. */
    constructor (store: GameStore)
      requires store.Valid() && store.state.currentPage == Level2
      ensures Valid() && Mounted() && this.store == store
      ensures currentIncidentIndex == 0 && selectedChoices == [None, None, None, None] && shipReaction == None
      ensures baseIncident == store.state.currentIncident && baseCompleted == store.state.incidentsCompleted
      ensures baseCorrect == store.state.correctDecisions && baseTotal == store.state.totalDecisions
    {
      this.store := store;
      currentIncidentIndex := 0;
      selectedChoices := [None, None, None, None];
      shipReaction := None;
      baseIncident := store.state.currentIncident;
      baseCompleted := store.state.incidentsCompleted;
      baseCorrect := store.state.correctDecisions;
      baseTotal := store.state.totalDecisions;
      new;
      NoneAnswered(selectedChoices);
    }

    /** The incident on screen: number `currentIncidentIndex + 1` of the catalogue, with three choices. */
    function CurrentIncident(): (inc: Incident)
      reads this
      requires WellFormed()
      ensures inc.id == currentIncidentIndex + 1 && |inc.choices| == 3
      ensures inc.choices[0].isCorrect && inc.choices[1].isCorrect && !inc.choices[2].isCorrect
    {
      Incidents()[currentIncidentIndex]
    }

    predicate IsLastIncident(): (last: bool)
      reads this
      ensures last <==> currentIncidentIndex == 3
    {
      currentIncidentIndex == |Incidents()| - 1
    }

    /** The current incident is answered; only then are "Next" and "Safe Mode" offered. */
    predicate HasSelectedChoice()
      reads this
      requires WellFormed()
    {
      selectedChoices[currentIncidentIndex].Some?
    }

    /** What the ship is told about the current answer: its correctness, or `None` while unanswered. */
    function SelectedWasCorrect(): (w: Option<bool>)
      reads this
      requires WellFormed()
      ensures w.Some? <==> HasSelectedChoice()
      ensures w.Some? ==> (w.value <==> IsCorrectSlot(currentIncidentIndex, selectedChoices[currentIncidentIndex]))
    {
      if HasSelectedChoice() then
        Some(CurrentIncident().choices[selectedChoices[currentIncidentIndex].value].isCorrect)
      else
        None
    }

    /** The card on screen: the current incident's choices and lesson, under the current slot's selection. */
    function Card(): (card: CardView<TextKey>)
      reads this
      requires WellFormed()
      ensures card.choices == RenderChoices(CurrentIncident().choices, selectedChoices[currentIncidentIndex])
      ensures card.lesson.Some? <==> HasSelectedChoice()
      ensures card.lesson.Some? ==> card.lesson.value == Lesson(currentIncidentIndex + 1)
      ensures HasSelectedChoice() <==> forall i :: 0 <= i < |card.choices| ==> !card.choices[i].enabled
    {
      RenderCard(CurrentIncident().lesson, CurrentIncident().choices, selectedChoices[currentIncidentIndex])
    }

    /** The progress bar's numerator: answered incidents, which is also the decisions made here. */
    function ProgressNumerator(): (n: nat)
      reads this, store
      requires Valid()
      ensures n <= |Incidents()|
      ensures n == Answered(selectedChoices)
      ensures n == store.state.totalDecisions - baseTotal
    {
      AnsweredFrontier(selectedChoices, currentIncidentIndex);
      currentIncidentIndex + (if HasSelectedChoice() then 1 else 0)
    }

    /** On a fresh playthrough the local index equals the reducer's incident counters. */
    lemma FreshCoupling()
      requires Valid() && StartedFresh()
      ensures store.state.currentIncident == currentIncidentIndex
      ensures store.state.incidentsCompleted == currentIncidentIndex
      ensures store.state.totalDecisions == Answered(selectedChoices)
      ensures store.state.correctDecisions == CorrectAnswered(selectedChoices)
      ensures ScoreConsistent(store.state)
    {
    }

    /** On this page the ship is always idle, correct or wrong: its fall-through case never shows. */
    lemma ShipAlwaysClassified()
      requires WellFormed()
      ensures var r, h, w := shipReaction, HasSelectedChoice(), SelectedWasCorrect();
        IsIdle(r, h) || IsCorrect(r, h, w) || IsWrong(r, h, w)
    {
      ClassifiedWhenKnown(shipReaction, HasSelectedChoice(), SelectedWasCorrect());
    }

    /** Records the answer for the current incident and scores it; it does not itself check the slot. */
    method HandleChoiceSelect(choice: Choice<TextKey>, index: nat)
      requires WellFormed() && store.Valid() && Mounted()
      requires index < |CurrentIncident().choices| && choice == CurrentIncident().choices[index]
      modifies this, store
      ensures WellFormed() && store.Valid() && Mounted()
      ensures currentIncidentIndex == old(currentIncidentIndex)
      ensures selectedChoices == old(selectedChoices)[currentIncidentIndex := Some(index)]
      ensures shipReaction == Some(if choice.isCorrect then CorrectReaction else WrongReaction)
      ensures store.history == old(store.history) + [MakeDecision(choice.isCorrect),
                SetAiMessage(if choice.isCorrect then DecisionExcellent else DecisionSuboptimal)]
      ensures store.state == old(store.state).(
                correctDecisions := old(store.state).correctDecisions + (if choice.isCorrect then 1 else 0),
                totalDecisions := old(store.state).totalDecisions + 1,
                aiMessage := if choice.isCorrect then DecisionExcellent else DecisionSuboptimal)
      ensures old(Valid()) && old(selectedChoices)[currentIncidentIndex] == None ==> Valid()
    {
      ghost var wasValid := Valid();
      ghost var sel0, s0 := selectedChoices, store.state;
      var newSelectedChoices := selectedChoices[currentIncidentIndex := Some(index)];
      selectedChoices := newSelectedChoices;
      store.Dispatch(MakeDecision(choice.isCorrect));
      shipReaction := if choice.isCorrect then Some(CorrectReaction) else Some(WrongReaction);
      if choice.isCorrect {
        store.Dispatch(SetAiMessage(DecisionExcellent));
      } else {
        store.Dispatch(SetAiMessage(DecisionSuboptimal));
      }
      assert store.state == s0.(
        correctDecisions := s0.correctDecisions + (if choice.isCorrect then 1 else 0),
        totalDecisions := s0.totalDecisions + 1,
        aiMessage := if choice.isCorrect then DecisionExcellent else DecisionSuboptimal);
      if wasValid && sel0[currentIncidentIndex] == None {
        AnswerKeepsCoupling(sel0, currentIncidentIndex, s0, Base(baseIncident, baseCompleted, baseCorrect, baseTotal),
                            index, store.state.aiMessage);
      }
    }

    /** A click on choice `index` of the current card: it only fires while the incident is unanswered. */
    method ClickChoice(index: nat)
      requires Valid() && Mounted() && index < |CurrentIncident().choices|
      modifies this, store
      ensures Valid() && Mounted()
      ensures currentIncidentIndex == old(currentIncidentIndex)
      ensures forall k :: 0 <= k < |old(selectedChoices)| && old(selectedChoices)[k].Some? ==>
                selectedChoices[k] == old(selectedChoices)[k]
      ensures old(HasSelectedChoice()) ==>
                && selectedChoices == old(selectedChoices) && shipReaction == old(shipReaction)
                && store.history == old(store.history) && store.state == old(store.state)
      ensures !old(HasSelectedChoice()) ==>
                var correct := Incidents()[currentIncidentIndex].choices[index].isCorrect;
                && selectedChoices == old(selectedChoices)[currentIncidentIndex := Some(index)]
                && store.history == old(store.history) + [MakeDecision(correct),
                     SetAiMessage(if correct then DecisionExcellent else DecisionSuboptimal)]
                && shipReaction == Some(if correct then CorrectReaction else WrongReaction)
                && store.state == old(store.state).(
                     correctDecisions := old(store.state).correctDecisions + (if correct then 1 else 0),
                     totalDecisions := old(store.state).totalDecisions + 1,
                     aiMessage := if correct then DecisionExcellent else DecisionSuboptimal)
    {
      if ClickFires(selectedChoices[currentIncidentIndex]) {
        HandleChoiceSelect(CurrentIncident().choices[index], index);
      }
    }

    /** The reaction overlay finished. */
    method HandleReactionComplete()
      requires Valid() && Mounted()
      modifies this
      ensures Valid() && Mounted()
      ensures shipReaction == None
      ensures currentIncidentIndex == old(currentIncidentIndex) && selectedChoices == old(selectedChoices)
    {
      shipReaction := None;
    }

    /** "Next Mission", or "Complete Mission" on the last incident. */
    method HandleNext()
      requires Valid() && Mounted() && HasSelectedChoice()
      modifies this, store
      ensures Valid() && PageStep(old(store.state.currentPage), store.state.currentPage)
      ensures selectedChoices == old(selectedChoices) && shipReaction == old(shipReaction)
      ensures old(IsLastIncident()) ==>
                && currentIncidentIndex == old(currentIncidentIndex)
                && store.history == old(store.history) + [SetPage(Outcome)]
                && store.state == old(store.state).(currentPage := Outcome)
      ensures !old(IsLastIncident()) ==>
                && currentIncidentIndex == old(currentIncidentIndex) + 1
                && store.history == old(store.history) + [NextIncident, SetAiMessage(NewAlert)]
                && store.state == old(store.state).(
                     currentIncident := old(store.state).currentIncident + 1,
                     incidentsCompleted := old(store.state).incidentsCompleted + 1,
                     aiMessage := NewAlert)
    {
      if IsLastIncident() {
        store.Dispatch(SetPage(Outcome));
      } else {
        currentIncidentIndex := currentIncidentIndex + 1;
        store.Dispatch(NextIncident);
        store.Dispatch(SetAiMessage(NewAlert));
      }
    }

    method HandleSafeMode()
      requires Valid() && Mounted() && HasSelectedChoice()
      modifies store
      ensures Valid() && PageStep(old(store.state.currentPage), store.state.currentPage)
      ensures store.history == old(store.history) + [ActivateSafeMode, SetPage(Outcome)]
      ensures store.state == old(store.state).(safeModeActivated := true, currentPage := Outcome)
    {
      store.Dispatch(ActivateSafeMode);
      store.Dispatch(SetPage(Outcome));
    }
  }
}
