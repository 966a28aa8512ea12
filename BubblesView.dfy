/** The focus reconciler of `BubblesView` (current revision): the registry of
    bubble views on screen, kept consistent with the gesture recognisers and
    with the animator's behaviours while the focus moves from bubble to
    bubble. The state of the view is read off as the values of `ViewState`,
    and every method states its effect on them. */
module Reconciler {
  import opened Core
  import opened FocusSets
  import opened ViewState
  import opened FocusSteps
  import opened ReloadSteps
  import Animator
  import Clock

  /// The states of a pan gesture that `didPanBubble` tells apart.
  datatype PanState = Began | Changed | Ended | Cancelled | Other

  /// A `CGSize`.
  datatype Size = Size(width: real, height: real)

  function Max(a: real, b: real): real { if a >= b then a else b }
  function Min(a: real, b: real): real { if a <= b then a else b }

  /// `min(hi, max(lo, v))`, the order in which `didPanBubble` bounds a coordinate.
  function Clamp(v: real, lo: real, hi: real): real
  {
    Min(hi, Max(lo, v))
  }

  /// A dragged coordinate stays inside the reference view whenever the view
  /// is at least as large as the bubble, and is left alone when it already is
  /// inside; in a view too small for the bubble the upper bound wins.
  lemma ClampBounds(v: real, lo: real, hi: real)
    ensures lo <= hi ==> lo <= Clamp(v, lo, hi) <= hi
    ensures lo <= v <= hi ==> Clamp(v, lo, hi) == v
    ensures hi < lo ==> Clamp(v, lo, hi) == hi
  {
  }

  /// The centre a bubble is dragged to: the finger minus the offset captured
  /// when the drag began, bounded so the bubble stays inside the view.
  function DraggedCenter(location: Point, offset: Point, bounds: Size, itemBounds: Size): Point
  {
    Point(Clamp(location.x - offset.x, itemBounds.width / 2.0, bounds.width - itemBounds.width / 2.0),
          Clamp(location.y - offset.y, itemBounds.height / 2.0, bounds.height - itemBounds.height / 2.0))
  }

  /// The fixed settings of `positionClock`.
  const ClockDivisions: int := 7
  const ClockRadius: int := 120

  /// The public settings of the view.
  datatype SettingsState = SettingsState(
    dataSource: Option<DataSource>,
    allowsDraggingBubbles: bool,
    userInteractionEnabled: bool,
    center: Point,
    animator: Animator.BouncyAnimator?)

  class BubblesView {
    var views: seq<Option<Index>>
    var indexToBubble: map<Index, BubbleId>
    /// The bubbles that hold a tap (pan) recogniser in `tapRecognizers`
    /// (`panRecognizers`); the recogniser objects carry no state of interest.
    var tapRecognizers: set<BubbleId>
    var panRecognizers: set<BubbleId>
    var currentRelated: set<Index>
    var focusedBubble: Option<BubbleId>
    var dragOffsets: map<BubbleId, Point>
    var dataSource: Option<DataSource>
    var allowsDraggingBubbles: bool
    var userInteractionEnabled: bool
    var center: Point
    /// The animator is optional and can be replaced at any time; every call
    /// the view makes on it is `animator?.…`, lost while it is nil.
    var animator: Animator.BouncyAnimator?
    /// While no animator is installed, the bookkeeping an animator would
    /// have kept from the lost calls. A ghost value with no counterpart in
    /// the view itself: it lets the same step functions describe the
    /// registry and the scene with or without an animator.
    ghost var unheard: Animator.AnimatorState
    const positionClock: Clock.PositionClock

    function Registry(): RegistryState
      reads this
    {
      RegistryState(views, indexToBubble, tapRecognizers, panRecognizers)
    }

    function Scene(): SceneState
      reads this
    {
      SceneState(currentRelated, focusedBubble, dragOffsets)
    }

    function Settings(): SettingsState
      reads this
    {
      SettingsState(dataSource, allowsDraggingBubbles, userInteractionEnabled, center, animator)
    }

    /// The animator's bookkeeping, or what it would be while there is none.
    ghost function AnimState(): Animator.AnimatorState
      reads this, animator
    {
      if animator == null then unheard else animator.State()
    }

    /// The whole view as one value.
    ghost function Current(): Stage
      reads this, animator
    {
      Stage(Registry(), Scene(), AnimState())
    }

    /// `focusedBubble?.index`.
    function FocusedIndex(): Option<Index>
      reads this
    {
      FocusedIndexOf(Registry(), Scene())
    }

    /// `currentlyDragging`.
    predicate CurrentlyDragging()
      reads this
    {
      |dragOffsets| != 0
    }

    ghost predicate ClockOk()
      reads positionClock
    {
      positionClock.Valid() && positionClock.divisions == ClockDivisions && positionClock.radius == ClockRadius
    }

    /// The registry and the scene agree, whatever the animator holds.
    ghost predicate Shaped()
      reads this, positionClock
    {
      RegistryOk(Registry()) && ShapeOk(Registry(), Scene()) && ClockOk()
    }

    /// The registry, the scene and the animator all agree.
    ghost predicate Valid()
      reads this, animator, positionClock
    {
      Consistent(Registry(), Scene(), AnimState()) && ClockOk()
    }

    /// What `reloadData` needs: nothing dragged, and an animator either in
    /// step with the view or freshly installed and holding nothing.
    ghost predicate Reloadable()
      reads this, animator, positionClock
    {
      Shaped() && dragOffsets == map[] && (Valid() || AnimState() == Animator.Idle)
    }

    /// The focused bubble, if any, is attached to nothing.
    ghost predicate FocusUntied()
      reads this, animator
    {
      focusedBubble.Some? ==> focusedBubble.value !in AnimState().relatedAttachments
    }

    /// A new view: nothing on screen, and no animator yet.
    constructor (center: Point)
      ensures Valid() && Registry() == EmptyRegistry && Scene() == EmptyScene
      ensures Settings() == SettingsState(None, true, true, center, null)
      ensures fresh(positionClock) && positionClock.calls == 0
    {
      views := [];
      indexToBubble := map[];
      tapRecognizers := {};
      panRecognizers := {};
      currentRelated := {};
      focusedBubble := None;
      dragOffsets := map[];
      dataSource := None;
      allowsDraggingBubbles := true;
      userInteractionEnabled := true;
      this.center := center;
      animator := null;
      unheard := Animator.Idle;
      positionClock := new Clock.PositionClock(ClockDivisions, ClockRadius);
      EmptyConsistent();
    }

    /// `animator = a`: nothing but the animator changes. A view whose animator
    /// is removed keeps the bookkeeping it had; the documentation asks for
    /// `reloadData` after a new one is installed, and a fresh animator that
    /// holds nothing makes the view reloadable.
    method SetAnimator(a: Animator.BouncyAnimator?)
      modifies this
      ensures Settings() == old(Settings()).(animator := a)
      ensures Registry() == old(Registry()) && Scene() == old(Scene())
      ensures a == null ==> AnimState() == old(AnimState())
      ensures a != null && a.State() == Animator.Idle && old(Shaped()) && dragOffsets == map[] ==> Reloadable()
    {
      if a == null {
        unheard := AnimState();
      }
      animator := a;
    }

    /// `animator?.addBehaviors(bubble)`; lost while there is no animator.
    method AnimatorAddBehaviors(bubble: BubbleId)
      modifies this, animator
      ensures Registry() == old(Registry()) && Scene() == old(Scene()) && Settings() == old(Settings())
      ensures AnimState() == Animator.WithBehaviors(old(AnimState()), bubble)
    {
      if animator != null {
        animator.AddBehaviors(bubble);
      } else {
        unheard := Animator.WithBehaviors(unheard, bubble);
      }
    }

    /// `animator?.removeBehaviors(bubble)`. With no animator nothing holds
    /// the bubble any more, its attachment included.
    method AnimatorRemoveBehaviors(bubble: BubbleId)
      modifies this, animator
      ensures Registry() == old(Registry()) && Scene() == old(Scene()) && Settings() == old(Settings())
      ensures AnimState() == Animator.Discarded(old(AnimState()), bubble, animator != null)
    {
      if animator != null {
        animator.RemoveBehaviors(bubble);
      } else {
        unheard := Animator.WithoutBehaviors(Animator.Untied(unheard, bubble), bubble);
      }
    }

    /// `animator?.addVelocity(bubble, velocity)`.
    method AnimatorAddVelocity(bubble: BubbleId, velocity: Vector)
      modifies this, animator
      ensures Registry() == old(Registry()) && Scene() == old(Scene()) && Settings() == old(Settings())
      ensures AnimState() == Animator.Pushed(old(AnimState()), bubble, velocity)
    {
      if animator != null {
        animator.AddVelocity(bubble, velocity);
      } else {
        unheard := Animator.Pushed(unheard, bubble, velocity);
      }
    }

    /// `animator?.addRelatedBehaviors(bubble)`: tied to the focused bubble.
    method AnimatorAddRelatedBehaviors(bubble: BubbleId)
      requires focusedBubble.Some?
      modifies this, animator
      ensures Registry() == old(Registry()) && Scene() == old(Scene()) && Settings() == old(Settings())
      ensures AnimState() == Animator.Tied(old(AnimState()), bubble, focusedBubble.value)
    {
      if animator != null {
        animator.AddRelatedBehaviors(bubble, focusedBubble);
      } else {
        unheard := Animator.Tied(unheard, bubble, focusedBubble.value);
      }
    }

    /// `animator?.removeRelatedBehaviors(bubble)`.
    method AnimatorRemoveRelatedBehaviors(bubble: BubbleId)
      modifies this, animator
      ensures Registry() == old(Registry()) && Scene() == old(Scene()) && Settings() == old(Settings())
      ensures AnimState() == Animator.Untied(old(AnimState()), bubble)
    {
      if animator != null {
        animator.RemoveRelatedBehaviors(bubble);
      } else {
        unheard := Animator.Untied(unheard, bubble);
      }
    }

    /// `animator?.addFocusedBehaviors(bubble)`: snapped to the view's centre.
    method AnimatorAddFocusedBehaviors(bubble: BubbleId)
      requires Alive(views, bubble)
      modifies this, animator
      ensures Registry() == old(Registry()) && Scene() == old(Scene()) && Settings() == old(Settings())
      ensures AnimState() == Animator.Snapped(old(AnimState()), bubble, center)
    {
      if animator != null {
        animator.AddFocusedBehaviors(bubble, views[bubble], center);
      } else {
        unheard := Animator.Snapped(unheard, bubble, center);
      }
    }

    /// `animator?.removeFocusedBehaviors(bubble)`.
    method AnimatorRemoveFocusedBehaviors(bubble: BubbleId)
      modifies this, animator
      ensures Registry() == old(Registry()) && Scene() == old(Scene()) && Settings() == old(Settings())
      ensures AnimState() == Animator.Unsnapped(old(AnimState()))
    {
      if animator != null {
        animator.RemoveFocusedBehaviors(bubble);
      } else {
        unheard := Animator.Unsnapped(unheard);
      }
    }

    /// `animator?.layoutChanged()`: the snap follows the view's centre.
    method AnimatorLayoutChanged()
      modifies this, animator
      ensures Registry() == old(Registry()) && Scene() == old(Scene()) && Settings() == old(Settings())
      ensures AnimState() == Animator.Relaid(old(AnimState()), focusedBubble, center)
    {
      if animator != null {
        animator.LayoutChanged(focusedBubble, center);
      } else {
        unheard := Animator.Relaid(unheard, focusedBubble, center);
      }
    }

    /// The assertions that close `focus`: one tap and one pan recogniser per
    /// index on screen.
    lemma RecognizerCounts()
      requires Valid() && focusedBubble.Some?
      ensures |tapRecognizers| == 1 + |currentRelated| && |panRecognizers| == 1 + |currentRelated|
    {
      ConsistentCounts(Registry(), Scene(), AnimState());
    }

    /// `dataSource!.configureBubble(index)` followed by `bubble.index = index`:
    /// a fresh view in the arena, not on screen yet.
    method ConfigureBubble(index: Index) returns (bubble: BubbleId)
      requires dataSource.Some?
      modifies this
      ensures bubble == |old(views)| && Registry() == Configured(old(Registry()), index)
      ensures Scene() == old(Scene()) && Settings() == old(Settings())
      ensures AnimState() == old(AnimState())
    {
      bubble := |views|;
      views := views + [Some(index)];
    }

    /// `addBubble`: asserts the bubble has an index, gives it both
    /// recognisers, registers it under its index and hands it to the
    /// animator. The frame and the grow-in animation are not modelled.
    method AddBubble(bubble: BubbleId)
      requires Alive(views, bubble)
      modifies this, animator
      ensures Registry() == Added(old(Registry()), bubble)
      ensures AnimState() == Animator.WithBehaviors(old(AnimState()), bubble)
      ensures Scene() == old(Scene()) && Settings() == old(Settings())
    {
      tapRecognizers := tapRecognizers + {bubble};
      panRecognizers := panRecognizers + {bubble};
      indexToBubble := indexToBubble[views[bubble].value := bubble];
      AnimatorAddBehaviors(bubble);
    }

    /// `removeBubble`: drops both recognisers, the behaviours and the
    /// registration under the bubble's index (force-unwrapped), and nils
    /// that index.
    method RemoveBubble(bubble: BubbleId)
      requires Alive(views, bubble)
      modifies this, animator
      ensures Registry() == Removed(old(Registry()), bubble)
      ensures AnimState() == Animator.Discarded(old(AnimState()), bubble, animator != null)
      ensures Scene() == old(Scene()) && Settings() == old(Settings())
    {
      panRecognizers := panRecognizers - {bubble};
      tapRecognizers := tapRecognizers - {bubble};
      AnimatorRemoveBehaviors(bubble);
      indexToBubble := indexToBubble - {views[bubble].value};
      views := views[bubble := None];
    }

    /// `bubbles.forEach{animator?.removeRelatedBehaviors($0)}`.
    method UntieAll(bubbles: set<BubbleId>)
      modifies this, animator
      ensures Registry() == old(Registry()) && Scene() == old(Scene()) && Settings() == old(Settings())
      ensures AnimState() == Animator.UntiedAll(old(AnimState()), bubbles)
    {
      ghost var s0 := AnimState();
      var rest := bubbles;
      Animator.UntiedNone(s0);
      while rest != {}
        invariant rest <= bubbles
        invariant Registry() == old(Registry()) && Scene() == old(Scene()) && Settings() == old(Settings())
        invariant AnimState() == Animator.UntiedAll(s0, bubbles - rest)
        decreases |rest|
      {
        var bubble :| bubble in rest;
        VisitOne(bubbles, rest, bubble);
        Animator.UntiedAllStep(s0, bubbles - rest, bubble);
        AnimatorRemoveRelatedBehaviors(bubble);
        rest := rest - {bubble};
      }
      VisitedAll(bubbles);
    }

    /// `bubbles.forEach{animator?.addRelatedBehaviors($0)}`: each is tied to
    /// the focused bubble.
    method TieAll(bubbles: set<BubbleId>)
      requires focusedBubble.Some?
      modifies this, animator
      ensures Registry() == old(Registry()) && Scene() == old(Scene()) && Settings() == old(Settings())
      ensures AnimState() == Animator.TiedAll(old(AnimState()), bubbles, focusedBubble.value)
    {
      ghost var s0 := AnimState();
      var rest := bubbles;
      Animator.TiedNone(s0, focusedBubble.value);
      while rest != {}
        invariant rest <= bubbles
        invariant Registry() == old(Registry()) && Scene() == old(Scene()) && Settings() == old(Settings())
        invariant AnimState() == Animator.TiedAll(s0, bubbles - rest, focusedBubble.value)
        decreases |rest|
      {
        var bubble :| bubble in rest;
        VisitOne(bubbles, rest, bubble);
        Animator.TiedAllStep(s0, bubbles - rest, bubble, focusedBubble.value);
        AnimatorAddRelatedBehaviors(bubble);
        rest := rest - {bubble};
      }
      VisitedAll(bubbles);
    }

    /// `bubbles.forEach{removeBubble($0)}`; every one of them must still have
    /// its index.
    method RemoveAll(bubbles: set<BubbleId>)
      requires forall b :: b in bubbles ==> Alive(views, b)
      modifies this, animator
      ensures Registry() == Dropped(old(Registry()), bubbles)
      ensures AnimState() == Animator.DiscardedAll(old(AnimState()), bubbles, animator != null)
      ensures Scene() == old(Scene()) && Settings() == old(Settings())
    {
      ghost var r0, s0 := Registry(), AnimState();
      var rest := bubbles;
      Animator.DiscardedNone(s0, animator != null);
      DroppedNone(r0);
      while rest != {}
        invariant rest <= bubbles
        invariant Registry() == Dropped(r0, bubbles - rest)
        invariant AnimState() == Animator.DiscardedAll(s0, bubbles - rest, animator != null)
        invariant Scene() == old(Scene()) && Settings() == old(Settings())
        decreases |rest|
      {
        var bubble :| bubble in rest;
        VisitOne(bubbles, rest, bubble);
        DroppedStep(r0, bubbles - rest, bubble);
        Animator.DiscardedAllStep(s0, bubbles - rest, bubble, animator != null);
        RemoveBubble(bubble);
        rest := rest - {bubble};
      }
      VisitedAll(bubbles);
    }

    /// One pass of the merged `addViews` passes: the data source configures a
    /// view for `index`, the clock gives its origin, the view is added and
    /// then tied to the focused bubble.
    method AddRelatedBubble(index: Index) returns (bubble: BubbleId)
      requires dataSource.Some? && focusedBubble.Some?
      requires positionClock.Valid() && positionClock.divisions != 0
      modifies this, animator, positionClock
      ensures bubble == |old(views)| && Current() == RelatedAddedStage(old(Current()), index)
      ensures Settings() == old(Settings())
      ensures positionClock.Valid() && positionClock.calls == old(positionClock.calls) + 1
    {
      bubble := ConfigureBubble(index);
      var origin := positionClock.Advance(center);
      AddBubble(bubble);
      AnimatorAddRelatedBehaviors(bubble);
    }

    /// One new related bubble per index of `toAdd`, in the order `added`
    /// that the iteration over the set happens to take: configured by the
    /// data source, placed at the next clock position, added, and tied to
    /// the focused bubble.
    method AddRelatedBubbles(toAdd: set<Index>) returns (added: seq<Index>)
      requires dataSource.Some? && focusedBubble.Some?
      requires positionClock.Valid() && positionClock.divisions != 0
      modifies this, animator, positionClock
      ensures NoDup(added) && |added| == |toAdd| && (forall i :: i in added <==> i in toAdd)
      ensures Current() == GrownStage(old(Current()), added)
      ensures Settings() == old(Settings())
      ensures positionClock.Valid() && positionClock.calls == old(positionClock.calls) + |toAdd|
    {
      ghost var st0 := Current();
      added := Enumerate(toAdd);
      GrownStageNone(st0);
      assert added[..0] == [];
      var k := 0;
      while k < |added|
        invariant 0 <= k <= |added|
        invariant Current() == GrownStage(st0, added[..k])
        invariant Settings() == old(Settings())
        invariant positionClock.Valid() && positionClock.calls == old(positionClock.calls) + k
      {
        GrownStageStep(st0, added, k);
        var bubble := AddRelatedBubble(added[k]);
        k := k + 1;
      }
      assert added[..k] == added;
    }

    /// `focus(index:)`: user interaction is switched off for the duration
    /// and restored on every exit; a focus that is already in place changes
    /// nothing; otherwise the view moves to the new focus.
    method Focus(focusIndex: Index) returns (added: seq<Index>)
      requires Valid() && dragOffsets == map[]
      requires FocusedIndex() != Some(focusIndex) ==>
        dataSource.Some? && focusIndex !in dataSource.value.relatedForBubble(focusIndex)
      modifies this, animator, positionClock
      ensures Valid() && Settings() == old(Settings()) && FocusedIndex() == Some(focusIndex)
      ensures old(FocusedIndex()) == Some(focusIndex) ==>
        Current() == old(Current()) && added == [] && positionClock.calls == old(positionClock.calls)
      ensures old(FocusedIndex()) != Some(focusIndex) ==>
        && NoDup(added) && (forall i :: i in added <==> i in ToAdd(currentRelated, old(currentRelated), old(FocusedIndex())))
        && Current() == Refocused(old(Current()), dataSource.value.relatedForBubble(focusIndex), focusIndex, center, added)
        && positionClock.calls == old(positionClock.calls) + |added|
      ensures |tapRecognizers| == 1 + |currentRelated| && |panRecognizers| == 1 + |currentRelated|
    {
      var previous := userInteractionEnabled;
      SetUserInteraction(false);
      added := [];
      if FocusedIndex() != Some(focusIndex) {
        added := Refocus(focusIndex);
      }
      SetUserInteraction(previous);
      RecognizerCounts();
    }

    /// `userInteractionEnabled = enabled`, which `focus` turns off while it
    /// works: nothing the reconciler keeps changes.
    method SetUserInteraction(enabled: bool)
      modifies this
      ensures Current() == old(Current()) && Settings() == old(Settings()).(userInteractionEnabled := enabled)
      ensures Valid() == old(Valid())
    {
      userInteractionEnabled := enabled;
    }

    /// `focus(index:)` past its guard, as a transformation of the view; the
    /// fresh related bubbles are created in the order of `added`.
    method Refocus(focusIndex: Index) returns (added: seq<Index>)
      requires Valid() && dragOffsets == map[] && FocusedIndex() != Some(focusIndex)
      requires dataSource.Some? && focusIndex !in dataSource.value.relatedForBubble(focusIndex)
      modifies this, animator, positionClock
      ensures Valid() && Settings() == old(Settings()) && FocusedIndex() == Some(focusIndex)
      ensures NoDup(added) && forall i :: i in added <==> i in ToAdd(currentRelated, old(currentRelated), old(FocusedIndex()))
      ensures Current() == Refocused(old(Current()), dataSource.value.relatedForBubble(focusIndex), focusIndex, center, added)
      ensures positionClock.calls == old(positionClock.calls) + |added|
    {
      ghost var st0 := Current();
      var newRelated := dataSource.value.relatedForBubble(focusIndex);
      var toAdd := ToAdd(newRelated, currentRelated, FocusedIndex());
      DisengagedFacts(st0, newRelated, focusIndex);
      var keepViews := ViewsOf(indexToBubble, ToKeep(newRelated, currentRelated));
      SwitchFocus(focusIndex, newRelated);
      added := AttachRelated(keepViews, toAdd, newRelated);
      RefocusedOk(st0, newRelated, focusIndex, center, added);
    }

    /// `focus(index:)` past its guard as written, where `toAdd` subtracts
    /// `focusedBubble?.index ?? -2`: the same steps as Refocus on the
    /// written set of indices to create. With a focused bubble, or without
    /// -2 among the new related indices, this is Refocus; otherwise -2 is
    /// left related with no bubble and the view is no longer valid.
    method RefocusAsWritten(focusIndex: Index) returns (added: seq<Index>)
      requires Valid() && dragOffsets == map[] && FocusedIndex() != Some(focusIndex)
      requires dataSource.Some? && focusIndex !in dataSource.value.relatedForBubble(focusIndex)
      modifies this, animator, positionClock
      ensures Settings() == old(Settings())
      ensures NoDup(added) && forall i :: i in added <==> i in ToAddAsWritten(currentRelated, old(currentRelated), old(FocusedIndex()))
      ensures Current() == Refocused(old(Current()), dataSource.value.relatedForBubble(focusIndex), focusIndex, center, added)
      ensures positionClock.calls == old(positionClock.calls) + |added|
      ensures old(FocusedIndex()).Some? || NoFocusSentinel !in currentRelated ==>
        Valid() && FocusedIndex() == Some(focusIndex)
      ensures old(FocusedIndex()).None? && NoFocusSentinel in currentRelated ==>
        NoFocusSentinel !in indexToBubble && !Valid()
    {
      ghost var st0 := Current();
      var newRelated := dataSource.value.relatedForBubble(focusIndex);
      var toAdd := ToAddAsWritten(newRelated, currentRelated, FocusedIndex());
      DisengagedFacts(st0, newRelated, focusIndex);
      var keepViews := ViewsOf(indexToBubble, ToKeep(newRelated, currentRelated));
      SwitchFocus(focusIndex, newRelated);
      added := AttachRelated(keepViews, toAdd, newRelated);
      ghost var fi := FocusedIndexOf(st0.r, st0.sc);
      if fi.Some? || NoFocusSentinel !in newRelated {
        SentinelHarmlessWhenFocused(newRelated, st0.sc.currentRelated, fi);
        RefocusedOk(st0, newRelated, focusIndex, center, added);
      } else {
        RefocusedAsWrittenLosesSentinel(st0, newRelated, focusIndex, center, added);
      }
    }

    /// The last steps of `focus`: the keepers are attached to the focus, a
    /// fresh bubble is created and attached for each index to add, and the
    /// related set is replaced.
    method AttachRelated(keepViews: set<BubbleId>, toAdd: set<Index>, newRelated: set<Index>) returns (added: seq<Index>)
      requires dataSource.Some? && focusedBubble.Some?
      requires positionClock.Valid() && positionClock.divisions != 0
      modifies this, animator, positionClock
      ensures NoDup(added) && (forall i :: i in added <==> i in toAdd)
      ensures Current() == AttachedStage(old(Current()), keepViews, added).(sc := old(Scene()).(currentRelated := newRelated))
      ensures Settings() == old(Settings())
      ensures positionClock.Valid() && positionClock.calls == old(positionClock.calls) + |added|
    {
      TieAll(keepViews);
      added := AddRelatedBubbles(toAdd);
      currentRelated := newRelated;
    }

    /// The first half of `focus`, up to the old focus.
    method SwitchFocus(focusIndex: Index, newRelated: set<Index>)
      requires CanRefocus(Current(), newRelated, focusIndex) && dataSource.Some?
      modifies this, animator
      ensures Current() == SwitchedStage(old(Current()), newRelated, focusIndex, center)
      ensures Settings() == old(Settings())
    {
      ghost var st0 := Current();
      var oldFocused := focusedBubble;
      var toRemove := ToRemove(newRelated, currentRelated, focusIndex);
      DisengagedFacts(st0, newRelated, focusIndex);
      ViewsOfAlive(Registry(), toRemove);
      var removeViews := ViewsOf(indexToBubble, toRemove);
      var keepViews := ViewsOf(indexToBubble, ToKeep(newRelated, currentRelated));
      if oldFocused.Some? {
        FocusUnattached(st0.r, st0.sc, st0.s);
      }
      Disengage(removeViews, keepViews);
      ghost var st1 := Current();
      var fb := Engage(focusIndex);
      EngagedKeepsViews(st1, focusIndex, center);
      Demote(oldFocused, newRelated);
    }

    /// The first steps of `focus`: the views of the indices to remove are
    /// detached and removed, the keepers detached, and the old focus loses
    /// its snap and its place as the focus.
    method Disengage(removeViews: set<BubbleId>, keepViews: set<BubbleId>)
      requires forall b :: b in removeViews ==> Alive(views, b)
      modifies this, animator
      ensures Current() == DisengagedStage(old(Current()), removeViews, keepViews)
      ensures Settings() == old(Settings())
    {
      UntieAll(removeViews);
      Animator.DiscardedAllUnattached(AnimState(), removeViews, animator != null);
      RemoveAll(removeViews);
      UntieAll(keepViews);
      if focusedBubble.Some? {
        AnimatorRemoveFocusedBehaviors(focusedBubble.value);
        focusedBubble := None;
      }
    }

    /// The new focus: the bubble already shown for a related index is
    /// detached and snapped; otherwise a fresh view is configured, added and
    /// snapped.
    method Engage(focusIndex: Index) returns (fb: BubbleId)
      requires dataSource.Some?
      requires focusIndex in currentRelated ==> focusIndex in indexToBubble && Alive(views, indexToBubble[focusIndex])
      modifies this, animator
      ensures Current() == EngagedStage(old(Current()), focusIndex, center) && focusedBubble == Some(fb)
      ensures Settings() == old(Settings())
    {
      if focusIndex in currentRelated {
        fb := indexToBubble[focusIndex];
        AnimatorRemoveRelatedBehaviors(fb);
        focusedBubble := Some(fb);
        AnimatorAddFocusedBehaviors(fb);
      } else {
        fb := CreateFocus(focusIndex);
      }
    }

    /// A fresh view for `focusIndex` is configured, added at the centre and
    /// becomes the focus, with the snap.
    method CreateFocus(focusIndex: Index) returns (fb: BubbleId)
      requires dataSource.Some?
      modifies this, animator
      ensures Current() == CreatedStage(old(Current()), focusIndex, center) && focusedBubble == Some(fb)
      ensures Settings() == old(Settings())
    {
      fb := ConfigureBubble(focusIndex);
      AddBubble(fb);
      focusedBubble := Some(fb);
      AnimatorAddFocusedBehaviors(fb);
    }

    /// `reloadData()`, corrected: with a data source, everything on screen
    /// goes (each related bubble detached before it is removed, as the
    /// animator protocol asks) and the data source's focus and its related
    /// set are built afresh, in the order of `added`; without one nothing
    /// happens.
    method ReloadData() returns (added: seq<Index>)
      requires Reloadable()
      requires dataSource.Some? ==>
        dataSource.value.focusedBubble !in dataSource.value.relatedForBubble(dataSource.value.focusedBubble)
      modifies this, animator, positionClock
      ensures Settings() == old(Settings())
      ensures dataSource.Some? || old(Valid()) ==> Valid()
      ensures dataSource.None? ==> Current() == old(Current()) && added == [] && positionClock.calls == old(positionClock.calls)
      ensures dataSource.Some? ==>
        && NoDup(added) && (forall i :: i in added <==> i in currentRelated)
        && Current() == Reloaded(old(Current()), dataSource.value, center, added, true)
        && FocusedIndex() == Some(dataSource.value.focusedBubble)
        && positionClock.calls == old(positionClock.calls) + |added|
    {
      added := [];
      if dataSource.None? {
        return;
      }
      ghost var st0 := Current();
      ghost var wasValid := Valid();
      ReloadableFocusUntied();
      added := Reload(true);
      if wasValid {
        ReloadedOk(st0, dataSource.value, center, added);
      } else {
        ResyncedOk(st0, dataSource.value, center, added, true);
      }
    }

    /// `reloadData()` as written: the related bubbles are removed while
    /// still attached, which breaks the animator protocol whenever an
    /// animator is installed and there were any. With a freshly installed
    /// animator there is nothing to detach, and with none nothing holds a
    /// removed bubble; either way the reload leaves the view valid.
    method ReloadDataAsWritten() returns (added: seq<Index>)
      requires Reloadable()
      modifies this, animator, positionClock
      ensures Settings() == old(Settings())
      ensures dataSource.None? ==> Current() == old(Current()) && added == [] && positionClock.calls == old(positionClock.calls)
      ensures dataSource.Some? ==>
        && NoDup(added) && (forall i :: i in added <==> i in currentRelated)
        && Current() == Reloaded(old(Current()), dataSource.value, center, added, animator == null)
        && positionClock.calls == old(positionClock.calls) + |added|
      ensures dataSource.Some? && animator != null && old(Valid()) && old(currentRelated) != {} ==> !AnimState().protocolKept
      ensures dataSource.Some? && (old(AnimState()) == Animator.Idle || (animator == null && old(Valid())))
              && dataSource.value.focusedBubble !in dataSource.value.relatedForBubble(dataSource.value.focusedBubble)
              ==> Valid() && FocusedIndex() == Some(dataSource.value.focusedBubble)
    {
      added := [];
      if dataSource.None? {
        return;
      }
      ghost var st0 := Current();
      ghost var wasValid := Valid();
      ReloadableFocusUntied();
      added := Reload(false);
      ghost var ds := dataSource.value;
      if animator != null && wasValid && st0.sc.currentRelated != {} {
        ReloadedAsWrittenBreaksProtocol(st0, ds, center, added);
      }
      if ds.focusedBubble !in ds.relatedForBubble(ds.focusedBubble) {
        if st0.s == Animator.Idle {
          ResyncedOk(st0, ds, center, added, animator == null);
        } else if animator == null && wasValid {
          ReloadedOk(st0, ds, center, added);
        }
      }
    }

    /// The body of `reloadData()` past its guard; `untie` detaches each
    /// related bubble before it is removed, and so does a removal no
    /// animator hears.
    method Reload(untie: bool) returns (added: seq<Index>)
      requires Shaped() && dataSource.Some? && FocusUntied()
      modifies this, animator, positionClock
      ensures Settings() == old(Settings())
      ensures NoDup(added) && (forall i :: i in added <==> i in currentRelated)
      ensures Current() == Reloaded(old(Current()), dataSource.value, center, added, untie || animator == null)
      ensures positionClock.Valid() && positionClock.calls == old(positionClock.calls) + |added|
    {
      if focusedBubble.Some? {
        RemovedOk(Registry(), focusedBubble.value);
      }
      DropFocus();
      DropRelated(untie);
      added := Rebuild();
    }

    /// A reloadable view's focus is attached to nothing.
    lemma ReloadableFocusUntied()
      requires Reloadable()
      ensures FocusUntied()
    {
      if focusedBubble.Some? && Valid() {
        FocusUnattached(Registry(), Scene(), AnimState());
      }
    }

    /// The old focus, if any, loses its snap and is removed.
    method DropFocus()
      requires focusedBubble.Some? ==> Alive(views, focusedBubble.value) && FocusUntied()
      modifies this, animator
      ensures Current() == FocusDropped(old(Current()))
      ensures Settings() == old(Settings())
    {
      if focusedBubble.Some? {
        var oldFocused := focusedBubble.value;
        AnimatorRemoveFocusedBehaviors(oldFocused);
        Animator.DiscardedUnattached(AnimState(), oldFocused, animator != null);
        RemoveBubble(oldFocused);
        focusedBubble := None;
      }
    }

    /// Every registered related bubble is removed; detached first when
    /// `untie` holds, and detached with it when no animator is installed.
    method DropRelated(untie: bool)
      requires RegistryOk(Registry())
      modifies this, animator
      ensures Current() == RelatedDropped(old(Current()), untie || animator == null)
      ensures Settings() == old(Settings())
    {
      var shown := currentRelated * indexToBubble.Keys;
      ViewsOfAlive(Registry(), shown);
      var relatedViews := ViewsOf(indexToBubble, shown);
      if untie {
        UntieAll(relatedViews);
        Animator.DiscardedAllUnattached(AnimState(), relatedViews, animator != null);
      }
      RemoveAll(relatedViews);
    }

    /// The data source's focus gets a fresh bubble at the centre, and each
    /// index related to it a fresh bubble attached to it.
    method Rebuild() returns (added: seq<Index>)
      requires dataSource.Some?
      requires positionClock.Valid() && positionClock.divisions != 0
      modifies this, animator, positionClock
      ensures Settings() == old(Settings())
      ensures var st3 := CreatedStage(old(Current()), dataSource.value.focusedBubble, center);
              Current() == GrownStage(st3.(sc := st3.sc.(currentRelated := currentRelated)), added)
      ensures currentRelated == dataSource.value.relatedForBubble(dataSource.value.focusedBubble)
      ensures NoDup(added) && (forall i :: i in added <==> i in currentRelated)
      ensures positionClock.Valid() && positionClock.calls == old(positionClock.calls) + |added|
    {
      var focusIndex := dataSource.value.focusedBubble;
      var fb := CreateFocus(focusIndex);
      currentRelated := dataSource.value.relatedForBubble(focusIndex);
      added := AddRelatedBubbles(currentRelated);
    }

    /// The old focus, if any: attached to the new one when it is related
    /// to it, removed otherwise.
    method Demote(oldFocused: Option<BubbleId>, newRelated: set<Index>)
      requires focusedBubble.Some?
      requires oldFocused.Some? ==> Alive(views, oldFocused.value) && oldFocused.value !in AnimState().relatedAttachments
      modifies this, animator
      ensures Current() == DemotedStage(old(Current()), oldFocused, newRelated)
      ensures Settings() == old(Settings())
    {
      if oldFocused.Some? {
        var f := oldFocused.value;
        if views[f].value in newRelated {
          AnimatorAddRelatedBehaviors(f);
        } else {
          Animator.DiscardedUnattached(AnimState(), f, animator != null);
          RemoveBubble(f);
        }
      }
    }

    /// `didTapBubble`: a tap reaches the delegate only while nothing is being
    /// dragged, and only for a bubble whose index has not been niled by a
    /// removal meanwhile. The index told is on screen, registered to exactly
    /// the tapped bubble.
    method DidTapBubble(target: BubbleId) returns (selected: Option<Index>)
      requires Valid() && target < |views|
      ensures selected.Some? <==> !CurrentlyDragging() && Alive(views, target)
      ensures selected.Some? ==>
        && selected.value in Displayed(FocusedIndex(), currentRelated)
        && selected.value in indexToBubble && indexToBubble[selected.value] == target
    {
      if CurrentlyDragging() {
        return None;
      }
      selected := views[target];
      if selected.Some? {
        assert Alive(views, target);
      }
    }

    /// `didPanBubble`: ignores the focused bubble and a view that forbids
    /// dragging. `Began` records the finger's offset from the centre and
    /// frees the bubble from the animator; `Ended`/`Cancelled` ties it again,
    /// gives it a new behaviour pushed with twice the gesture's velocity, and
    /// forgets the offset; `Changed` moves it to the bounded new centre. A
    /// pan on a live bubble keeps the view consistent.
    method DidPanBubble(target: BubbleId, state: PanState, location: Point, targetCenter: Point,
                        velocity: Vector, bounds: Size, itemBounds: Size) returns (newCenter: Option<Point>)
      requires Valid() && target < |views|
      requires state == Changed && focusedBubble != Some(target) && allowsDraggingBubbles ==> target in dragOffsets
      requires (state == Ended || state == Cancelled) && focusedBubble != Some(target) && allowsDraggingBubbles ==> focusedBubble.Some?
      modifies this, animator
      ensures Alive(views, target) ==> Valid()
      ensures Registry() == old(Registry()) && Settings() == old(Settings())
      ensures currentRelated == old(currentRelated) && focusedBubble == old(focusedBubble)
      ensures newCenter.Some? <==> state == Changed && focusedBubble != Some(target) && allowsDraggingBubbles
      ensures focusedBubble == Some(target) || !allowsDraggingBubbles || state == Changed || state == Other ==>
        dragOffsets == old(dragOffsets) && AnimState() == old(AnimState())
      ensures newCenter.Some? ==>
        newCenter.value == DraggedCenter(location, old(dragOffsets)[target], bounds, itemBounds)
      ensures state == Began && focusedBubble != Some(target) && allowsDraggingBubbles ==>
        && dragOffsets == old(dragOffsets)[target := Point(location.x - targetCenter.x, location.y - targetCenter.y)]
        && AnimState() == Animator.WithoutBehaviors(Animator.Untied(old(AnimState()), target), target)
      ensures (state == Ended || state == Cancelled) && focusedBubble != Some(target) && allowsDraggingBubbles ==>
        && dragOffsets == old(dragOffsets) - {target}
        && AnimState() == Released(old(AnimState()), target, focusedBubble.value, velocity)
    {
      newCenter := None;
      if focusedBubble == Some(target) || !allowsDraggingBubbles {
        return;
      }
      match state {
        case Began =>
          ghost var s0 := AnimState();
          dragOffsets := dragOffsets[target := Point(location.x - targetCenter.x, location.y - targetCenter.y)];
          AnimatorRemoveRelatedBehaviors(target);
          Animator.DiscardedUnattached(AnimState(), target, animator != null);
          AnimatorRemoveBehaviors(target);
          if Alive(views, target) {
            DragBeganOk(Registry(), old(Scene()), s0, target, dragOffsets[target]);
          }
        case Ended =>
          EndDrag(target, velocity);
        case Cancelled =>
          EndDrag(target, velocity);
        case Changed =>
          newCenter := Some(DraggedCenter(location, dragOffsets[target], bounds, itemBounds));
        case Other =>
      }
    }

    /// The `.Cancelled, .Ended` branch of `didPanBubble`.
    method EndDrag(target: BubbleId, velocity: Vector)
      requires Valid() && target < |views| && focusedBubble.Some? && focusedBubble != Some(target)
      modifies this, animator
      ensures Alive(views, target) ==> Valid()
      ensures Registry() == old(Registry()) && Settings() == old(Settings())
      ensures currentRelated == old(currentRelated) && focusedBubble == old(focusedBubble)
      ensures dragOffsets == old(dragOffsets) - {target}
      ensures AnimState() == Released(old(AnimState()), target, focusedBubble.value, velocity)
    {
      ghost var r0, sc0, s0 := Registry(), Scene(), AnimState();
      Release(target, velocity);
      dragOffsets := dragOffsets - {target};
      if Alive(views, target) {
        DragEndedOk(r0, sc0, s0, target, velocity);
        assert Registry() == r0 && Scene() == sc0.(dragOffsets := sc0.dragOffsets - {target});
      }
    }

    /// The animator's part of `Ended`/`Cancelled`: tie the bubble to the
    /// focused one, give it a behaviour, push it with twice the velocity.
    method Release(target: BubbleId, velocity: Vector)
      requires focusedBubble.Some?
      modifies this, animator
      ensures Registry() == old(Registry()) && Scene() == old(Scene()) && Settings() == old(Settings())
      ensures AnimState() == Released(old(AnimState()), target, focusedBubble.value, velocity)
    {
      AnimatorAddRelatedBehaviors(target);
      AnimatorAddBehaviors(target);
      AnimatorAddVelocity(target, Amplified(velocity));
    }

    /// `layoutSubviews`: the animator moves the snap to the current centre.
    method LayoutSubviews()
      requires Valid()
      modifies this, animator
      ensures Registry() == old(Registry()) && Scene() == old(Scene()) && Settings() == old(Settings())
      ensures Valid()
      ensures AnimState() == Animator.Relaid(old(AnimState()), focusedBubble, center)
      ensures focusedBubble.Some? ==> AnimState().focusedSnap == Some(Animator.Snap(focusedBubble.value, center))
    {
      AnimatorLayoutChanged();
    }
  }
}
