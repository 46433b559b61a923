/**
 * The incident card's per-choice display and its click gate. Everything the
 * card shows about a choice depends only on the currently selected index
 * (`None` while unanswered) and that choice's own position and correctness.
 * The card is generic in the type `Text` of its wording.
 */
module IncidentCard {
  import opened Wrappers

  datatype Choice<Text> = Choice(text: Text, isCorrect: bool, consequence: Text)

  datatype Icon = CheckIcon | CrossIcon

  /** What one choice button shows. */
  datatype ChoiceView<Text> = ChoiceView(
    enabled: bool,
    dimmed: bool,
    icon: Option<Icon>,
    consequence: Option<Text>)

  /** A click reaches `onChoiceSelect` only while nothing is selected. */
  predicate ClickFires(selectedChoice: Option<nat>) {
    selectedChoice == None
  }

  /** The lesson panel is shown once a choice is selected. */
  predicate LessonShown(selectedChoice: Option<nat>) {
    selectedChoice != None
  }

  /** One button: a check or cross and the consequence on the chosen one, the others dimmed once anything is chosen. */
  function ViewOf<Text>(choice: Choice<Text>, index: nat, selectedChoice: Option<nat>): (v: ChoiceView<Text>)
    ensures v.enabled <==> ClickFires(selectedChoice)
    ensures v.dimmed <==> selectedChoice.Some? && selectedChoice != Some(index)
    ensures v.icon.Some? <==> selectedChoice == Some(index)
    ensures v.icon.Some? ==> (v.icon.value == CheckIcon <==> choice.isCorrect)
    ensures v.consequence == (if selectedChoice == Some(index) then Some(choice.consequence) else None)
  {
    var chosen := selectedChoice == Some(index);
    ChoiceView(
      selectedChoice == None,
      selectedChoice != None && !chosen,
      if chosen then Some(if choice.isCorrect then CheckIcon else CrossIcon) else None,
      if chosen then Some(choice.consequence) else None)
  }

  /** The buttons of the card, one per choice, in order. */
  function RenderChoices<Text>(choices: seq<Choice<Text>>, selectedChoice: Option<nat>): (views: seq<ChoiceView<Text>>)
    ensures |views| == |choices|
    ensures forall i :: 0 <= i < |views| ==> (views[i].enabled <==> ClickFires(selectedChoice))
    ensures forall i :: 0 <= i < |views| ==> (views[i].dimmed <==> selectedChoice.Some? && selectedChoice.value != i)
    ensures forall i :: 0 <= i < |views| ==> (views[i].consequence.Some? <==> selectedChoice == Some(i))
    ensures forall i :: 0 <= i < |views| && views[i].consequence.Some? ==> views[i].consequence.value == choices[i].consequence
    ensures forall i :: 0 <= i < |views| ==> (views[i].icon.Some? <==> selectedChoice == Some(i))
    ensures forall i :: 0 <= i < |views| && views[i].icon.Some? ==>
              (views[i].icon.value == CheckIcon <==> choices[i].isCorrect)
  {
    seq(|choices|, i requires 0 <= i < |choices| => ViewOf(choices[i], i, selectedChoice))
  }

  /** The whole card: its choice buttons and the lesson panel, `None` while hidden. */
  datatype CardView<Text> = CardView(choices: seq<ChoiceView<Text>>, lesson: Option<Text>)

  /** The card for `choices` under `selectedChoice`; the title and alert are always shown and not part of the view. */
  function RenderCard<Text>(lesson: Text, choices: seq<Choice<Text>>, selectedChoice: Option<nat>): (card: CardView<Text>)
    ensures card.choices == RenderChoices(choices, selectedChoice)
    ensures card.lesson.Some? <==> selectedChoice.Some?
    ensures card.lesson.Some? ==> card.lesson.value == lesson
    ensures |choices| > 0 ==> (card.lesson.Some? <==> forall i :: 0 <= i < |card.choices| ==> !card.choices[i].enabled)
  {
    var views := RenderChoices(choices, selectedChoice);
    // The first button witnesses that the buttons are all disabled exactly when a choice is selected.
    assert |choices| > 0 ==> (views[0].enabled <==> ClickFires(selectedChoice));
    CardView(views, if LessonShown(selectedChoice) then Some(lesson) else None)
  }

  /** With no selection nothing is dimmed; with a valid one exactly one choice is not. */
  lemma DimmedExactlyOthers<Text>(choices: seq<Choice<Text>>, selectedChoice: Option<nat>)
    ensures selectedChoice == None ==> forall i :: 0 <= i < |choices| ==> !RenderChoices(choices, selectedChoice)[i].dimmed
    ensures selectedChoice.Some? && selectedChoice.value < |choices| ==>
      && !RenderChoices(choices, selectedChoice)[selectedChoice.value].dimmed
      && RenderChoices(choices, selectedChoice)[selectedChoice.value].consequence.Some?
      && forall i :: 0 <= i < |choices| && i != selectedChoice.value ==>
           RenderChoices(choices, selectedChoice)[i].dimmed && RenderChoices(choices, selectedChoice)[i].consequence.None?
  {
  }
}
