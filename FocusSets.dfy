/** The set algebra at the heart of `focus`: which indices a focus change
    creates, removes and keeps, and what is displayed once it is done. */
module FocusSets {
  import opened Core

  /// `focusedBubble?.index ?? -2`: the value `focus` removes from `toAdd`
  /// when it has no focused bubble.
  const NoFocusSentinel: Index := -2

  function FocusKey(oldFocus: Option<Index>): Index
  {
    match oldFocus
    case Some(f) => f
    case None => NoFocusSentinel
  }

  /// `toAdd` as written: `newRelated - currentRelated`, minus the old focus,
  /// or minus the sentinel -2 when nothing is focused.
  function ToAddAsWritten(newRelated: set<Index>, currentRelated: set<Index>, oldFocus: Option<Index>): set<Index>
  {
    newRelated - currentRelated - {FocusKey(oldFocus)}
  }

  /// `toAdd` as intended: the new related indices that have no bubble yet.
  /// Without a focused bubble nothing is subtracted besides `currentRelated`.
  function ToAdd(newRelated: set<Index>, currentRelated: set<Index>, oldFocus: Option<Index>): set<Index>
  {
    match oldFocus
    case Some(f) => newRelated - currentRelated - {f}
    case None => newRelated - currentRelated
  }

  /// `toRemove`: related bubbles that are neither related to nor the new focus.
  function ToRemove(newRelated: set<Index>, currentRelated: set<Index>, focusIndex: Index): set<Index>
  {
    currentRelated - newRelated - {focusIndex}
  }

  /// `toKeep`: related bubbles that stay related.
  function ToKeep(newRelated: set<Index>, currentRelated: set<Index>): set<Index>
  {
    newRelated * currentRelated
  }

  /// The indices on screen: the focus and its related set.
  function Displayed(focus: Option<Index>, related: set<Index>): set<Index>
  {
    match focus
    case Some(f) => {f} + related
    case None => related
  }

  /// The sentinel -2 is a real index to a data source: when nothing is focused
  /// and -2 is related to the new focus, `toAdd` as written drops it, so -2 ends
  /// up in `currentRelated` with no bubble on screen.
  lemma SentinelDropsIndex(newRelated: set<Index>, currentRelated: set<Index>)
    requires NoFocusSentinel in newRelated && NoFocusSentinel !in currentRelated
    ensures NoFocusSentinel in ToAdd(newRelated, currentRelated, None)
    ensures NoFocusSentinel !in ToAddAsWritten(newRelated, currentRelated, None)
    ensures ToAddAsWritten(newRelated, currentRelated, None) == ToAdd(newRelated, currentRelated, None) - {NoFocusSentinel}
  {
  }

  /// Whenever a focused bubble exists, or the sentinel is not related, the
  /// written `toAdd` agrees with the intended one.
  lemma {:induction false} SentinelHarmlessWhenFocused(newRelated: set<Index>, currentRelated: set<Index>, oldFocus: Option<Index>)
    requires oldFocus.Some? || NoFocusSentinel !in newRelated
    ensures ToAddAsWritten(newRelated, currentRelated, oldFocus) == ToAdd(newRelated, currentRelated, oldFocus)
  {
    if oldFocus.None? {
      assert newRelated - currentRelated - {NoFocusSentinel} == newRelated - currentRelated;
    }
  }

  /// The new related set splits into created, kept and (possibly) the demoted
  /// old focus, with no overlaps: every new related bubble has exactly one origin.
  lemma NewRelatedPartition(newRelated: set<Index>, currentRelated: set<Index>, oldFocus: Option<Index>)
    requires oldFocus.Some? ==> oldFocus.value !in currentRelated
    ensures var add := ToAdd(newRelated, currentRelated, oldFocus);
            var keep := ToKeep(newRelated, currentRelated);
            var demoted := if oldFocus.Some? && oldFocus.value in newRelated then {oldFocus.value} else {};
            && newRelated == add + keep + demoted
            && add !! keep && add !! demoted && keep !! demoted
  {
  }

  /// The old related set splits into removed, kept and (possibly) the promoted
  /// new focus, with no overlaps.
  lemma CurrentRelatedPartition(newRelated: set<Index>, currentRelated: set<Index>, focusIndex: Index)
    requires focusIndex !in newRelated
    ensures var remove := ToRemove(newRelated, currentRelated, focusIndex);
            var keep := ToKeep(newRelated, currentRelated);
            var promoted := if focusIndex in currentRelated then {focusIndex} else {};
            && currentRelated == remove + keep + promoted
            && remove !! keep && remove !! promoted && keep !! promoted
  {
  }

  /// Applying the transition to what is displayed gives exactly the new focus
  /// and its related set: the removed and the non-demoted old focus go, the
  /// created and a freshly configured focus come, and nothing created was
  /// already on screen.
  lemma TransitionDisplayed(newRelated: set<Index>, currentRelated: set<Index>, oldFocus: Option<Index>, focusIndex: Index)
    requires oldFocus.Some? ==> oldFocus.value !in currentRelated && oldFocus.value != focusIndex
    requires focusIndex !in newRelated
    ensures var before := Displayed(oldFocus, currentRelated);
            var add := ToAdd(newRelated, currentRelated, oldFocus);
            var remove := ToRemove(newRelated, currentRelated, focusIndex);
            var dropped := if oldFocus.Some? && oldFocus.value !in newRelated then {oldFocus.value} else {};
            var created := if focusIndex in currentRelated then {} else {focusIndex};
            && add !! before
            && created !! before
            && remove + dropped <= before
            && Displayed(Some(focusIndex), newRelated) == (before - remove - dropped) + created + add
  {
  }

  /// The old focus when it is related to the new one: it stays, attached.
  function Demoted(newRelated: set<Index>, oldFocus: Option<Index>): set<Index>
  {
    if oldFocus.Some? && oldFocus.value in newRelated then {oldFocus.value} else {}
  }

  /// The old focus when it is not related to the new one: it goes.
  function Retired(newRelated: set<Index>, oldFocus: Option<Index>): set<Index>
  {
    if oldFocus.Some? && oldFocus.value !in newRelated then {oldFocus.value} else {}
  }

  /// The sets the first half of `focus` passes through: the indices shown
  /// and, among them, those attached to a focused bubble. Removing
  /// `toRemove` and detaching the keepers leaves only a related new focus
  /// attached; once the new focus holds the snap nothing is attached; the
  /// old focus, demoted, is the first index attached again. What is shown
  /// then is the new focus and its related set, but for the indices still
  /// to create.
  lemma SwitchTrajectory(newRelated: set<Index>, currentRelated: set<Index>, oldFocus: Option<Index>, focusIndex: Index)
    requires oldFocus.Some? ==> oldFocus.value !in currentRelated && oldFocus.value != focusIndex
    requires focusIndex !in newRelated
    ensures var remove := ToRemove(newRelated, currentRelated, focusIndex);
            var keep := ToKeep(newRelated, currentRelated);
            var shown1 := Displayed(oldFocus, currentRelated) - remove;
            var tied1 := currentRelated - remove - keep;
            var promoted := focusIndex in currentRelated;
            var shown2 := if promoted then shown1 else shown1 + {focusIndex};
            && remove <= currentRelated && currentRelated <= Displayed(oldFocus, currentRelated)
            && keep <= shown1
            && (promoted ==> focusIndex in tied1 && tied1 - {focusIndex} == {})
            && (!promoted ==> focusIndex !in shown1 && tied1 == {})
            && (oldFocus.Some? ==> oldFocus.value in shown2 && oldFocus.value !in remove)
            && shown2 - Retired(newRelated, oldFocus) == Displayed(Some(focusIndex), newRelated) - ToAdd(newRelated, currentRelated, oldFocus)
  {
  }

  /// The second half of `focus`: the keepers are among the indices shown,
  /// the created ones are not, and together with the demoted old focus they
  /// make up the new related set.
  lemma BuildTrajectory(newRelated: set<Index>, currentRelated: set<Index>, oldFocus: Option<Index>, focusIndex: Index)
    requires oldFocus.Some? ==> oldFocus.value !in currentRelated && oldFocus.value != focusIndex
    requires focusIndex !in newRelated
    ensures var keep := ToKeep(newRelated, currentRelated);
            var add := ToAdd(newRelated, currentRelated, oldFocus);
            var shown := Displayed(Some(focusIndex), newRelated) - add;
            && keep <= shown && add !! shown && focusIndex in shown
            && shown + add == Displayed(Some(focusIndex), newRelated)
            && Demoted(newRelated, oldFocus) + keep + add == newRelated
  {
  }
}
