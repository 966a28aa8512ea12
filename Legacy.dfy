/** The older revision of the reconciler, `BubblesView` in its first form
    (and `BubbleViewController`, which carries the same code in a view
    controller): the attachments, behaviours, snap and recognisers are kept
    by the view itself. Every method states its effect as a step of
    `LegacySteps` on the snapshot of its fields. */
module Legacy {
  import opened Core
  import opened FocusSets
  import opened ViewState
  import opened LegacySteps

  /// `addBubble` asserts that the bubble's index is not -1: no index the
  /// view creates a bubble for may be -1.
  const Unindexed: Index := -1

  /// The indices `focus(bubbleIndex:)` creates bubbles for from `l` are not
  /// -1: the new focus unless it is already related, and each index to add.
  ghost predicate CreatesIndexed(l: Snapshot, bubbleIndex: Index, newRelated: set<Index>)
  {
    && (bubbleIndex !in l.currentRelated ==> bubbleIndex != Unindexed)
    && Unindexed !in ToAdd(newRelated, l.currentRelated, FocusIndexOf(l))
  }

  /// The indices `reloadData` creates bubbles for are not -1: the data
  /// source's focus and its related set.
  predicate RebuildsIndexed(ds: DataSource)
  {
    ds.focusedBubble != Unindexed && Unindexed !in ds.relatedForBubble(ds.focusedBubble)
  }

  class LegacyBubblesView {
    var dataSource: Option<DataSource>
    var views: seq<Option<Index>>
    var indexToBubble: map<Index, BubbleId>
    /// The bubbles with an entry in `tapRecognizers` (`panRecognizers`,
    /// `bubbleBehaviors`); the recogniser and behaviour objects carry no
    /// state of interest.
    var tapRecognizers: set<BubbleId>
    var panRecognizers: set<BubbleId>
    var bubbleBehaviors: set<BubbleId>
    /// The attached bubble and the bubble it is attached to, per entry of
    /// `relatedAttachments`.
    var relatedAttachments: map<BubbleId, BubbleId>
    var currentRelated: set<Index>
    var focusedBubble: Option<BubbleId>
    /// The bubble `focusedSnap` snaps, if any.
    var focusedSnap: Option<BubbleId>
    /// The attachments left behind by bubbles removed while attached.
    ghost var staleAttachments: set<BubbleId>
    /// Whether every live view still has its tap entry.
    ghost var tapsComplete: bool

    function Current(): Snapshot
      reads this
    {
      Snapshot(views, indexToBubble, tapRecognizers, panRecognizers, bubbleBehaviors, relatedAttachments,
               currentRelated, focusedBubble, focusedSnap)
    }

    /// What the bookkeeping steps leave alone.
    ghost function Context(): (Option<DataSource>, set<BubbleId>, bool)
      reads this
    {
      (dataSource, staleAttachments, tapsComplete)
    }

    ghost predicate Valid()
      reads this
    {
      LegacyOk(Current(), staleAttachments, tapsComplete)
    }

    /// A new view: nothing on screen and no data source.
    constructor ()
      ensures Valid() && Current() == Empty && dataSource == None
      ensures staleAttachments == {} && tapsComplete
    {
      dataSource := None;
      views := [];
      indexToBubble := map[];
      tapRecognizers := {};
      panRecognizers := {};
      bubbleBehaviors := {};
      relatedAttachments := map[];
      currentRelated := {};
      focusedBubble := None;
      focusedSnap := None;
      staleAttachments := {};
      tapsComplete := true;
      EmptyOk();
    }

    /// `dataSource.configureBubble(index)` and `bubble.index = index`.
    method ConfigureBubble(index: Index) returns (bubble: BubbleId)
      requires dataSource.Some?
      modifies this
      ensures bubble == |old(views)| && Current() == Made(old(Current()), index) && Context() == old(Context())
    {
      bubble := |views|;
      views := views + [Some(index)];
    }

    /// `addBubble`: asserts the bubble has an index and registers it under
    /// it, with a tap recogniser and a behaviour.
    method AddBubble(bubble: BubbleId)
      requires Alive(views, bubble) && views[bubble].value != Unindexed
      modifies this
      ensures Current() == BubbleAdded(old(Current()), bubble) && Context() == old(Context())
    {
      tapRecognizers := tapRecognizers + {bubble};
      indexToBubble := indexToBubble[views[bubble].value := bubble];
      bubbleBehaviors := bubbleBehaviors + {bubble};
    }

    /// `removeBubble`: the behaviour must exist (force-unwrapped), and so
    /// must the index.
    method RemoveBubble(bubble: BubbleId)
      requires Alive(views, bubble) && bubble in bubbleBehaviors
      modifies this
      ensures Current() == BubbleRemoved(old(Current()), bubble) && Context() == old(Context())
    {
      tapRecognizers := tapRecognizers - {bubble};
      bubbleBehaviors := bubbleBehaviors - {bubble};
      indexToBubble := indexToBubble - {views[bubble].value};
      views := views[bubble := None];
    }

    /// `configureFocused`: asserts the bubble has an index.
    method ConfigureFocused(bubble: BubbleId)
      requires Alive(views, bubble)
      modifies this
      ensures Current() == FocusConfigured(old(Current()), bubble) && Context() == old(Context())
    {
      focusedSnap := Some(bubble);
      focusedBubble := Some(bubble);
    }

    /// `disengageFocused`; as written (`keepTap` false) it drops the
    /// bubble's tap entry.
    method DisengageFocused(bubble: BubbleId, keepTap: bool)
      modifies this
      ensures Current() == FocusDisengaged(old(Current()), bubble, keepTap) && Context() == old(Context())
    {
      if !keepTap {
        tapRecognizers := tapRecognizers - {bubble};
      }
      focusedBubble := None;
      focusedSnap := None;
    }

    /// `configureRelated`: asserts the bubble has an index.
    method ConfigureRelated(bubble: BubbleId)
      requires Alive(views, bubble)
      modifies this
      ensures Current() == RelatedConfigured(old(Current()), bubble) && Context() == old(Context())
    {
      panRecognizers := panRecognizers + {bubble};
    }

    /// `disengageRelated`: the pan recogniser must exist (force-unwrapped).
    method DisengageRelated(bubble: BubbleId)
      requires bubble in panRecognizers
      modifies this
      ensures Current() == RelatedDisengaged(old(Current()), bubble) && Context() == old(Context())
    {
      panRecognizers := panRecognizers - {bubble};
    }

    /// `addAttachment`: asserts there is a focused bubble to attach to.
    method AddAttachment(bubble: BubbleId)
      requires focusedBubble.Some?
      modifies this
      ensures Current() == AttachmentAdded(old(Current()), bubble) && Context() == old(Context())
    {
      relatedAttachments := relatedAttachments[bubble := focusedBubble.value];
    }

    /// `removeAttachment`: the attachment must exist (force-unwrapped).
    method RemoveAttachment(bubble: BubbleId)
      requires bubble in relatedAttachments
      modifies this
      ensures Current() == AttachmentRemoved(old(Current()), bubble) && Context() == old(Context())
    {
      relatedAttachments := relatedAttachments - {bubble};
    }

    /// `ids.forEach{disengageRelated($0)}`.
    method DisengageRelatedAll(ids: set<BubbleId>)
      requires ids <= panRecognizers
      modifies this
      ensures Current() == RelatedDisengagedAll(old(Current()), ids) && Context() == old(Context())
    {
      ghost var l0 := Current();
      var rest := ids;
      while rest != {}
        invariant rest <= ids
        invariant Current() == RelatedDisengagedAll(l0, ids - rest) && Context() == old(Context())
        decreases |rest|
      {
        var bubble :| bubble in rest;
        VisitOne(ids, rest, bubble);
        DisengageRelated(bubble);
        rest := rest - {bubble};
      }
      VisitedAll(ids);
    }

    /// `ids.forEach{removeAttachment($0)}`.
    method RemoveAttachmentAll(ids: set<BubbleId>)
      requires ids <= relatedAttachments.Keys
      modifies this
      ensures Current() == AttachmentsRemovedAll(old(Current()), ids) && Context() == old(Context())
    {
      ghost var l0 := Current();
      var rest := ids;
      while rest != {}
        invariant rest <= ids
        invariant Current() == AttachmentsRemovedAll(l0, ids - rest) && Context() == old(Context())
        decreases |rest|
      {
        var bubble :| bubble in rest;
        VisitOne(ids, rest, bubble);
        RemoveAttachment(bubble);
        rest := rest - {bubble};
      }
      VisitedAll(ids);
    }

    /// `ids.forEach{removeBubble($0)}`.
    method RemoveBubbleAll(ids: set<BubbleId>)
      requires forall b :: b in ids ==> Alive(views, b) && b in bubbleBehaviors
      modifies this
      ensures Current() == BubblesRemovedAll(old(Current()), ids) && Context() == old(Context())
    {
      ghost var l0 := Current();
      var rest := ids;
      RemovedAllNone(l0);
      while rest != {}
        invariant rest <= ids
        invariant Current() == BubblesRemovedAll(l0, ids - rest) && Context() == old(Context())
        decreases |rest|
      {
        var bubble :| bubble in rest;
        VisitOne(ids, rest, bubble);
        RemovedAllStep(l0, ids - rest, bubble);
        RemoveBubble(bubble);
        rest := rest - {bubble};
      }
      VisitedAll(ids);
    }

    /// `ids.forEach{addAttachment($0)}`.
    method AddAttachmentAll(ids: set<BubbleId>)
      requires focusedBubble.Some?
      modifies this
      ensures Current() == AttachmentsAddedAll(old(Current()), ids) && Context() == old(Context())
    {
      ghost var l0 := Current();
      var rest := ids;
      AttachedAllNone(l0);
      while rest != {}
        invariant rest <= ids
        invariant Current() == AttachmentsAddedAll(l0, ids - rest) && Context() == old(Context())
        decreases |rest|
      {
        var bubble :| bubble in rest;
        VisitOne(ids, rest, bubble);
        AttachedAllStep(l0, ids - rest, bubble);
        AddAttachment(bubble);
        rest := rest - {bubble};
      }
      VisitedAll(ids);
    }

    /// One new related bubble: configured by the data source, added, given
    /// a pan recogniser and attached to the focus.
    method AddRelatedBubble(index: Index) returns (bubble: BubbleId)
      requires dataSource.Some? && focusedBubble.Some? && index != Unindexed
      modifies this
      ensures bubble == |old(views)| && Current() == RelatedAdded(old(Current()), index) && Context() == old(Context())
    {
      bubble := ConfigureBubble(index);
      AddBubble(bubble);
      ConfigureRelated(bubble);
      AddAttachment(bubble);
    }

    /// A new related bubble for each index of `toAdd`, in the order
    /// `added` that the iteration over the set happens to take.
    method AddRelatedBubbles(toAdd: set<Index>) returns (added: seq<Index>)
      requires dataSource.Some? && focusedBubble.Some? && Unindexed !in toAdd
      modifies this
      ensures Enumerates(added, toAdd) && |added| == |toAdd|
      ensures Current() == LegacySteps.Grown(old(Current()), added) && Context() == old(Context())
    {
      ghost var l0 := Current();
      added := Enumerate(toAdd);
      assert added[..0] == [];
      var k := 0;
      while k < |added|
        invariant 0 <= k <= |added|
        invariant focusedBubble == l0.focusedBubble
        invariant Current() == LegacySteps.Grown(l0, added[..k]) && Context() == old(Context())
      {
        GrownStep(l0, added, k);
        var bubble := AddRelatedBubble(added[k]);
        k := k + 1;
      }
      assert added[..k] == added;
    }

    /// `focus(bubbleIndex:)`, corrected so that the old focus keeps its tap
    /// entry: a focus already in place changes nothing; otherwise the view
    /// moves to the new focus and its related set, and the assertion that
    /// closes the source's method (as many attachments as related indices)
    /// holds exactly when no attachment was left behind.
    method Focus(bubbleIndex: Index) returns (added: seq<Index>)
      requires Valid()
      requires FocusIndexOf(Current()) != Some(bubbleIndex) ==>
        && dataSource.Some? && bubbleIndex !in dataSource.value.relatedForBubble(bubbleIndex)
        && CreatesIndexed(Current(), bubbleIndex, dataSource.value.relatedForBubble(bubbleIndex))
      modifies this
      ensures Valid() && Context() == old(Context()) && FocusIndexOf(Current()) == Some(bubbleIndex)
      ensures old(FocusIndexOf(Current())) == Some(bubbleIndex) ==> Current() == old(Current()) && added == []
      ensures old(FocusIndexOf(Current())) != Some(bubbleIndex) ==>
        && currentRelated == dataSource.value.relatedForBubble(bubbleIndex)
        && Enumerates(added, ToAdd(currentRelated, old(currentRelated), old(FocusIndexOf(Current()))))
        && Refocusable(old(Current()), currentRelated, bubbleIndex)
        && Current() == Refocused(old(Current()), currentRelated, bubbleIndex, added, true)
      ensures |relatedAttachments| == |currentRelated| <==> staleAttachments == {}
    {
      added := [];
      if FocusIndexOf(Current()) != Some(bubbleIndex) {
        added := Refocus(bubbleIndex, dataSource.value.relatedForBubble(bubbleIndex), true);
      }
      AttachmentCount(Current(), staleAttachments, tapsComplete);
    }

    /// `focus(bubbleIndex:)` as written: an old focus that stays on screen
    /// as a related bubble has lost its tap entry.
    method FocusAsWritten(bubbleIndex: Index) returns (added: seq<Index>)
      requires Valid()
      requires FocusIndexOf(Current()) != Some(bubbleIndex) ==>
        && dataSource.Some? && bubbleIndex !in dataSource.value.relatedForBubble(bubbleIndex)
        && CreatesIndexed(Current(), bubbleIndex, dataSource.value.relatedForBubble(bubbleIndex))
      modifies this
      ensures Valid() && dataSource == old(dataSource) && staleAttachments == old(staleAttachments)
      ensures FocusIndexOf(Current()) == Some(bubbleIndex)
      ensures old(FocusIndexOf(Current())) == Some(bubbleIndex) ==>
        Current() == old(Current()) && added == [] && tapsComplete == old(tapsComplete)
      ensures old(FocusIndexOf(Current())) != Some(bubbleIndex) ==>
        && currentRelated == dataSource.value.relatedForBubble(bubbleIndex)
        && Enumerates(added, ToAdd(currentRelated, old(currentRelated), old(FocusIndexOf(Current()))))
        && Refocusable(old(Current()), currentRelated, bubbleIndex)
        && Current() == Refocused(old(Current()), currentRelated, bubbleIndex, added, false)
      ensures old(focusedBubble).Some? && old(FocusIndexOf(Current())) != Some(bubbleIndex)
              && old(views[focusedBubble.value].value) in currentRelated ==>
        Alive(views, old(focusedBubble).value) && old(focusedBubble).value !in tapRecognizers
      ensures |relatedAttachments| == |currentRelated| <==> staleAttachments == {}
    {
      ghost var l0, at := Current(), tapsComplete;
      added := [];
      if FocusIndexOf(Current()) != Some(bubbleIndex) {
        added := Refocus(bubbleIndex, dataSource.value.relatedForBubble(bubbleIndex), false);
        if l0.focusedBubble.Some? && l0.views[l0.focusedBubble.value].value in currentRelated {
          DemotedTapEntry(l0, staleAttachments, at, currentRelated, bubbleIndex, added, false);
        }
      }
      AttachmentCount(Current(), staleAttachments, tapsComplete);
    }

    /// `focus(bubbleIndex:)` past its guard, with `newRelated` the data
    /// source's related set of the new focus; `keepTap` tells the corrected
    /// `disengageFocused` from the one as written.
    method Refocus(bubbleIndex: Index, newRelated: set<Index>, keepTap: bool) returns (added: seq<Index>)
      requires Valid() && FocusIndexOf(Current()) != Some(bubbleIndex)
      requires dataSource.Some? && bubbleIndex !in newRelated
      requires CreatesIndexed(Current(), bubbleIndex, newRelated)
      modifies this
      ensures Valid() && dataSource == old(dataSource) && staleAttachments == old(staleAttachments)
      ensures tapsComplete == (old(tapsComplete) && keepTap)
      ensures currentRelated == newRelated
      ensures Enumerates(added, ToAdd(newRelated, old(currentRelated), old(FocusIndexOf(Current()))))
      ensures Refocusable(old(Current()), newRelated, bubbleIndex)
      ensures Current() == Refocused(old(Current()), newRelated, bubbleIndex, added, keepTap)
      ensures FocusIndexOf(Current()) == Some(bubbleIndex)
    {
      added := Rejoin(bubbleIndex, newRelated, keepTap);
      Commit(newRelated, keepTap);
    }

    /// The last step of `focus`: the new related set is recorded (and, in
    /// the ghost state, whether the old focus kept its tap entry).
    method Commit(newRelated: set<Index>, keepTap: bool)
      modifies this
      ensures Current() == old(Current()).(currentRelated := newRelated)
      ensures dataSource == old(dataSource) && staleAttachments == old(staleAttachments)
      ensures tapsComplete == (old(tapsComplete) && keepTap)
    {
      currentRelated := newRelated;
      tapsComplete := tapsComplete && keepTap;
    }

    /// `focus(bubbleIndex:)` up to the new related set: the focus switched,
    /// the keepers attached to it and the missing related bubbles added.
    method Rejoin(bubbleIndex: Index, newRelated: set<Index>, keepTap: bool) returns (added: seq<Index>)
      requires CanRefocus(Current(), staleAttachments, tapsComplete, newRelated, bubbleIndex) && dataSource.Some?
      requires CreatesIndexed(Current(), bubbleIndex, newRelated)
      modifies this
      ensures Context() == old(Context())
      ensures Enumerates(added, ToAdd(newRelated, old(currentRelated), old(FocusIndexOf(Current()))))
      ensures Refocusable(old(Current()), newRelated, bubbleIndex)
      ensures Current().(currentRelated := newRelated) == Refocused(old(Current()), newRelated, bubbleIndex, added, keepTap)
      ensures var r := Current().(currentRelated := newRelated);
              LegacyOk(r, staleAttachments, tapsComplete && keepTap) && FocusIndexOf(r) == Some(bubbleIndex)
    {
      ghost var l0 := Current();
      var toAdd := ToAdd(newRelated, currentRelated, FocusIndexOf(Current()));
      ReleasableFacts(l0, staleAttachments, tapsComplete, newRelated, bubbleIndex);
      var keepViews := KeepViews(Current(), newRelated);
      SwitchFocus(bubbleIndex, newRelated, keepTap);
      ghost var s := Current();
      AddAttachmentAll(keepViews);
      added := AddRelatedBubbles(toAdd);
      assert Current() == Joined(s, keepViews, added);
      RefocusedOk(l0, staleAttachments, tapsComplete, newRelated, bubbleIndex, added, keepTap);
    }

    /// The first half of `focus`, up to the old focus.
    method SwitchFocus(bubbleIndex: Index, newRelated: set<Index>, keepTap: bool)
      requires CanRefocus(Current(), staleAttachments, tapsComplete, newRelated, bubbleIndex) && dataSource.Some?
      requires CreatesIndexed(Current(), bubbleIndex, newRelated)
      modifies this
      ensures Refocusable(old(Current()), newRelated, bubbleIndex)
      ensures Current() == Switched(old(Current()), newRelated, bubbleIndex, keepTap) && Context() == old(Context())
    {
      ghost var l0 := Current();
      var oldFocused := focusedBubble;
      ReleasableFacts(l0, staleAttachments, tapsComplete, newRelated, bubbleIndex);
      SwitchableFacts(l0, staleAttachments, tapsComplete, newRelated, bubbleIndex, keepTap);
      var removeViews := RemoveViews(Current(), newRelated, bubbleIndex);
      var keepViews := KeepViews(Current(), newRelated);
      Release(removeViews, keepViews, keepTap);
      var fb := Engage(bubbleIndex);
      Place(oldFocused, newRelated);
    }

    /// The first steps of `focus`: the views to remove lose their pan
    /// recognisers, their attachments and their place; the keepers lose
    /// their attachments; the old focus is disengaged.
    method Release(removeViews: set<BubbleId>, keepViews: set<BubbleId>, keepTap: bool)
      requires removeViews <= panRecognizers && removeViews <= relatedAttachments.Keys
      requires keepViews <= relatedAttachments.Keys && removeViews !! keepViews
      requires forall b :: b in removeViews ==> Alive(views, b) && b in bubbleBehaviors
      modifies this
      ensures Current() == LegacySteps.Released(old(Current()), removeViews, keepViews, keepTap) && Context() == old(Context())
    {
      DisengageRelatedAll(removeViews);
      RemoveAttachmentAll(removeViews);
      RemoveBubbleAll(removeViews);
      RemoveAttachmentAll(keepViews);
      if focusedBubble.Some? {
        DisengageFocused(focusedBubble.value, keepTap);
      }
    }

    /// The new focus: a related index keeps its view, which loses its pan
    /// recogniser and its attachment (both force-unwrapped); any other
    /// index gets a fresh view from the data source. Either way the view is
    /// then snapped.
    method Engage(bubbleIndex: Index) returns (fb: BubbleId)
      requires dataSource.Some? && (bubbleIndex !in currentRelated ==> bubbleIndex != Unindexed)
      requires bubbleIndex in currentRelated ==>
        && bubbleIndex in indexToBubble && indexToBubble[bubbleIndex] in panRecognizers
        && indexToBubble[bubbleIndex] in relatedAttachments && Alive(views, indexToBubble[bubbleIndex])
      modifies this
      ensures Current() == Engaged(old(Current()), bubbleIndex) && Context() == old(Context())
    {
      if bubbleIndex in currentRelated {
        fb := indexToBubble[bubbleIndex];
        DisengageRelated(fb);
        RemoveAttachment(fb);
        ConfigureFocused(fb);
      } else {
        fb := ConfigureBubble(bubbleIndex);
        AddBubble(fb);
        ConfigureFocused(fb);
      }
    }

    /// The old focus, if any: given a pan recogniser and attached to the
    /// new focus when it is related to it, removed otherwise.
    method Place(oldFocused: Option<BubbleId>, newRelated: set<Index>)
      requires focusedBubble.Some?
      requires oldFocused.Some? ==> Alive(views, oldFocused.value) && oldFocused.value in bubbleBehaviors
      modifies this
      ensures Current() == Placed(old(Current()), oldFocused, newRelated) && Context() == old(Context())
    {
      if oldFocused.Some? {
        var f := oldFocused.value;
        if views[f].value in newRelated {
          ConfigureRelated(f);
          AddAttachment(f);
        } else {
          RemoveBubble(f);
        }
      }
    }

    /// `reloadData()`, corrected: with a data source, everything on screen
    /// goes (each related bubble detached first) and the data source's
    /// focus and its related set are built afresh, in the order `added`;
    /// without one nothing happens.
    method ReloadData() returns (added: seq<Index>)
      requires Valid()
      requires dataSource.Some? ==>
        && dataSource.value.focusedBubble !in dataSource.value.relatedForBubble(dataSource.value.focusedBubble)
        && RebuildsIndexed(dataSource.value)
      modifies this
      ensures Valid() && Context() == old(Context())
      ensures dataSource.None? ==> Current() == old(Current()) && added == []
      ensures dataSource.Some? ==>
        && Enumerates(added, currentRelated)
        && Reloadable(old(Current()))
        && Current() == Reloaded(old(Current()), dataSource.value, added, true)
        && FocusIndexOf(Current()) == Some(dataSource.value.focusedBubble)
        && currentRelated == dataSource.value.relatedForBubble(dataSource.value.focusedBubble)
    {
      added := [];
      if dataSource.None? {
        return;
      }
      added := Reload(true);
    }

    /// `reloadData()` as written: the related bubbles are removed with
    /// their attachments still in place, which stay behind whenever there
    /// were any, so that there are more attachments than related indices.
    method ReloadDataAsWritten() returns (added: seq<Index>)
      requires Valid()
      requires dataSource.Some? ==>
        && dataSource.value.focusedBubble !in dataSource.value.relatedForBubble(dataSource.value.focusedBubble)
        && RebuildsIndexed(dataSource.value)
      modifies this
      ensures Valid() && dataSource == old(dataSource) && tapsComplete == old(tapsComplete)
      ensures dataSource.None? ==> Current() == old(Current()) && added == [] && staleAttachments == old(staleAttachments)
      ensures dataSource.Some? ==>
        && Enumerates(added, currentRelated)
        && Reloadable(old(Current()))
        && Current() == Reloaded(old(Current()), dataSource.value, added, false)
        && staleAttachments == old(staleAttachments) + RelatedViews(old(Current()))
        && FocusIndexOf(Current()) == Some(dataSource.value.focusedBubble)
      ensures dataSource.Some? && old(currentRelated) != {} ==> |relatedAttachments| > |currentRelated|
    {
      ghost var l0, at := Current(), tapsComplete;
      added := [];
      if dataSource.None? {
        return;
      }
      added := Reload(false);
      if l0.currentRelated != {} {
        ReloadedAsWrittenStale(l0, old(staleAttachments), at, dataSource.value, added);
      }
    }

    /// The body of `reloadData()` past its guard; `detach` removes each
    /// related bubble's attachment before the bubble.
    method Reload(detach: bool) returns (added: seq<Index>)
      requires Valid() && dataSource.Some?
      requires dataSource.value.focusedBubble !in dataSource.value.relatedForBubble(dataSource.value.focusedBubble)
      requires RebuildsIndexed(dataSource.value)
      modifies this
      ensures Valid() && dataSource == old(dataSource) && tapsComplete == old(tapsComplete)
      ensures Reloadable(old(Current()))
      ensures staleAttachments == if detach then old(staleAttachments) else old(staleAttachments) + RelatedViews(old(Current()))
      ensures Enumerates(added, currentRelated)
      ensures Current() == Reloaded(old(Current()), dataSource.value, added, detach)
      ensures FocusIndexOf(Current()) == Some(dataSource.value.focusedBubble)
      ensures currentRelated == dataSource.value.relatedForBubble(dataSource.value.focusedBubble)
    {
      ghost var l0 := Current();
      added := Rebuilt(detach);
      ReloadedOk(l0, staleAttachments, tapsComplete, dataSource.value, added, detach);
      staleAttachments := if detach then staleAttachments else staleAttachments + RelatedViews(l0);
    }

    /// The steps of `reloadData()` past its guard, on the recorded state.
    method Rebuilt(detach: bool) returns (added: seq<Index>)
      requires Valid() && dataSource.Some? && RebuildsIndexed(dataSource.value)
      modifies this
      ensures Context() == old(Context())
      ensures Reloadable(old(Current()))
      ensures Enumerates(added, currentRelated)
      ensures Current() == Reloaded(old(Current()), dataSource.value, added, detach)
    {
      ReloadableFacts(Current(), staleAttachments, tapsComplete);
      DropFocus();
      DropRelated(detach);
      added := Rebuild();
    }

    /// The old focus, if any, is disengaged and removed.
    method DropFocus()
      requires focusedBubble.Some? ==> Alive(views, focusedBubble.value) && focusedBubble.value in bubbleBehaviors
      modifies this
      ensures Current() == FocusDropped(old(Current())) && Context() == old(Context())
    {
      if focusedBubble.Some? {
        var oldFocused := focusedBubble.value;
        DisengageFocused(oldFocused, false);
        RemoveBubble(oldFocused);
      }
    }

    /// The related views (force-unwrapped) lose their pan recognisers and
    /// are removed; with `detach` they lose their attachments in between.
    method DropRelated(detach: bool)
      requires currentRelated <= indexToBubble.Keys
      requires RelatedViews(Current()) <= panRecognizers && RelatedViews(Current()) <= relatedAttachments.Keys
      requires forall b :: b in RelatedViews(Current()) ==> Alive(views, b) && b in bubbleBehaviors
      modifies this
      ensures Current() == RelatedDropped(old(Current()), detach) && Context() == old(Context())
    {
      var relatedViews := RelatedViews(Current());
      DisengageRelatedAll(relatedViews);
      if detach {
        RemoveAttachmentAll(relatedViews);
      }
      RemoveBubbleAll(relatedViews);
    }

    /// The data source's focus gets a fresh bubble, snapped, and each index
    /// related to it a fresh bubble attached to it.
    method Rebuild() returns (added: seq<Index>)
      requires dataSource.Some? && RebuildsIndexed(dataSource.value)
      modifies this
      ensures Context() == old(Context())
      ensures currentRelated == dataSource.value.relatedForBubble(dataSource.value.focusedBubble)
      ensures Enumerates(added, currentRelated)
      ensures var l3 := FocusConfigured(BubbleCreated(old(Current()), dataSource.value.focusedBubble), |old(views)|);
              Current() == LegacySteps.Grown(l3.(currentRelated := currentRelated), added)
    {
      var focusIndex := dataSource.value.focusedBubble;
      var fb := ConfigureBubble(focusIndex);
      AddBubble(fb);
      ConfigureFocused(fb);
      currentRelated := dataSource.value.relatedForBubble(focusIndex);
      added := AddRelatedBubbles(currentRelated);
    }

    /// `layoutSubviews`, corrected so that the focus keeps its tap entry:
    /// it snaps the focus to the new centre and changes nothing recorded.
    method LayoutSubviews()
      requires Valid()
      modifies this
      ensures Valid() && Context() == old(Context()) && Current() == old(Current())
    {
      LaidOutOk(Current(), staleAttachments, tapsComplete, true);
      Relayout(true);
    }

    /// `layoutSubviews` as written: the focus loses its tap entry.
    method LayoutSubviewsAsWritten()
      requires Valid()
      modifies this
      ensures Valid() && dataSource == old(dataSource) && staleAttachments == old(staleAttachments)
      ensures Current() == LaidOut(old(Current()), false)
      ensures old(focusedBubble).Some? ==> !tapsComplete && old(focusedBubble).value !in tapRecognizers
    {
      LaidOutOk(Current(), staleAttachments, tapsComplete, false);
      Relayout(false);
      if focusedBubble.Some? {
        tapsComplete := false;
      }
    }

    /// The body of `layoutSubviews`: the focus, if any, is disengaged and
    /// configured again.
    method Relayout(keepTap: bool)
      requires focusedBubble.Some? ==> Alive(views, focusedBubble.value)
      modifies this
      ensures Current() == LaidOut(old(Current()), keepTap) && Context() == old(Context())
    {
      if focusedBubble.Some? {
        var focused := focusedBubble.value;
        DisengageFocused(focused, keepTap);
        ConfigureFocused(focused);
      }
    }
  }
}
