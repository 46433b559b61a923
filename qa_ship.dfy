/**
 * The ship graphic's classification of the player's latest input into idle,
 * correct or wrong, and the status label derived from it.
 */
module QAShip {
  import opened Wrappers

  /** The short-lived reaction after an answer; `None` once it has cleared. */
  datatype Reaction = CorrectReaction | WrongReaction

  datatype Label = NominalLabel | CriticalLabel | AlertLabel

  predicate IsIdle(reaction: Option<Reaction>, hasSelectedChoice: bool) {
    !hasSelectedChoice && reaction == None
  }

  predicate IsCorrect(reaction: Option<Reaction>, hasSelectedChoice: bool, selectedWasCorrect: Option<bool>) {
    reaction == Some(CorrectReaction) || (hasSelectedChoice && selectedWasCorrect == Some(true) && reaction == None)
  }

  predicate IsWrong(reaction: Option<Reaction>, hasSelectedChoice: bool, selectedWasCorrect: Option<bool>) {
    reaction == Some(WrongReaction) || (hasSelectedChoice && selectedWasCorrect == Some(false) && reaction == None)
  }

  function LabelOf(reaction: Option<Reaction>, hasSelectedChoice: bool, selectedWasCorrect: Option<bool>): (l: Label)
    ensures l == NominalLabel <==> IsCorrect(reaction, hasSelectedChoice, selectedWasCorrect)
    ensures l == CriticalLabel <==> IsWrong(reaction, hasSelectedChoice, selectedWasCorrect)
    ensures IsIdle(reaction, hasSelectedChoice) ==> l == AlertLabel
  {
    if IsCorrect(reaction, hasSelectedChoice, selectedWasCorrect) then NominalLabel
    else if IsWrong(reaction, hasSelectedChoice, selectedWasCorrect) then CriticalLabel
    else AlertLabel
  }

  /** The three classes never overlap. */
  lemma ClassesDisjoint(reaction: Option<Reaction>, hasSelectedChoice: bool, selectedWasCorrect: Option<bool>)
    ensures !(IsCorrect(reaction, hasSelectedChoice, selectedWasCorrect) && IsWrong(reaction, hasSelectedChoice, selectedWasCorrect))
    ensures IsIdle(reaction, hasSelectedChoice) ==>
      !IsCorrect(reaction, hasSelectedChoice, selectedWasCorrect) && !IsWrong(reaction, hasSelectedChoice, selectedWasCorrect)
  {
  }

  /** A live reaction decides the class; without one, a selection defers to `selectedWasCorrect`. */
  lemma ReactionDecides(reaction: Option<Reaction>, hasSelectedChoice: bool, selectedWasCorrect: Option<bool>)
    ensures reaction.Some? ==>
      && (IsCorrect(reaction, hasSelectedChoice, selectedWasCorrect) <==> reaction.value == CorrectReaction)
      && (IsWrong(reaction, hasSelectedChoice, selectedWasCorrect) <==> reaction.value == WrongReaction)
    ensures reaction == None && hasSelectedChoice ==>
      && (IsCorrect(reaction, hasSelectedChoice, selectedWasCorrect) <==> selectedWasCorrect == Some(true))
      && (IsWrong(reaction, hasSelectedChoice, selectedWasCorrect) <==> selectedWasCorrect == Some(false))
  {
  }

  /** When correctness is known exactly for a selection, every input is idle, correct or wrong. */
  lemma ClassifiedWhenKnown(reaction: Option<Reaction>, hasSelectedChoice: bool, selectedWasCorrect: Option<bool>)
    requires hasSelectedChoice <==> selectedWasCorrect.Some?
    ensures || IsIdle(reaction, hasSelectedChoice)
            || IsCorrect(reaction, hasSelectedChoice, selectedWasCorrect)
            || IsWrong(reaction, hasSelectedChoice, selectedWasCorrect)
  {
    if reaction.Some? {
      var r: Reaction := reaction.value;
      assert reaction == Some(r);
      if r == CorrectReaction {
        assert reaction == Some(CorrectReaction);
      } else {
        assert reaction == Some(WrongReaction);
      }
    } else if hasSelectedChoice {
      var correct: bool := selectedWasCorrect.value;
      assert selectedWasCorrect == Some(correct);
    }
  }

  /** A selection with no reaction and no known correctness is in no class and reads "Alert". */
  lemma UnknownCorrectnessFallsThrough()
    ensures !IsIdle(None, true) && !IsCorrect(None, true, None) && !IsWrong(None, true, None)
    ensures LabelOf(None, true, None) == AlertLabel
  {
  }
}
