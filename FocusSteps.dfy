/** The steps of `focus` and `reloadData` as transformations of the view's
    values, and the bookkeeping each of them keeps. Between two steps the
    view is not consistent (the focus may be missing, attachments may point
    to a bubble that is about to lose its focus), but it is always
    `Settled`: every registered index has one live view, every live view has
    its behaviours, the protocol has been kept, and a known set of the
    registered indices is attached to a known anchor. */
module FocusSteps {
  import opened Core
  import opened FocusSets
  import opened Animator
  import opened ViewState

  /// The bookkeeping between the steps of `focus`, with nothing dragged: the
  /// registry is consistent and registers exactly `shown`; every live view,
  /// and nothing else, has a behaviour and is in gravity and collision; the
  /// protocol has been kept; and exactly the views of `tied`, a part of
  /// `shown`, are attached, to `anchor`.
  ghost predicate Settled(r: RegistryState, s: AnimatorState, shown: set<Index>, tied: set<Index>, anchor: BubbleId)
  {
    && RegistryOk(r) && r.indexToBubble.Keys == shown && tied <= shown
    && s.bubbleBehaviors.Keys == LiveIds(r.views)
    && s.gravityItems == LiveIds(r.views) && s.collisionItems == LiveIds(r.views)
    && s.protocolKept
    && s.relatedAttachments == AttachAll(ViewsOf(r.indexToBubble, tied), anchor)
  }

  /// The bubble the related bubbles are attached to (any bubble when none is
  /// focused: then nothing is attached).
  function AnchorOf(sc: SceneState): BubbleId
  {
    match sc.focusedBubble
    case Some(fb) => fb
    case None => 0
  }

  /// The animator after the first steps of `focus`: the removed views are
  /// detached and lose their behaviours, the keepers are detached, and the
  /// snap goes when there was a focus.
  function Disengaged(s: AnimatorState, removeViews: set<BubbleId>, keepViews: set<BubbleId>, hadFocus: bool): AnimatorState
  {
    var d := UntiedAll(WithoutBehaviorsAll(UntiedAll(s, removeViews), removeViews), keepViews);
    if hadFocus then Unsnapped(d) else d
  }

  /// A live view showing none of `indices` is none of their views.
  lemma NotAmongViews(r: RegistryState, indices: set<Index>, bubble: BubbleId)
    requires RegistryOk(r) && indices <= r.indexToBubble.Keys
    requires Alive(r.views, bubble) && r.views[bubble].value !in indices
    ensures bubble !in ViewsOf(r.indexToBubble, indices)
  {
    ViewsOfAlive(r, indices);
  }

  /// Views of the indices that lose none of their registrations.
  lemma ViewsOfUnchanged(m: map<Index, BubbleId>, m': map<Index, BubbleId>, indices: set<Index>)
    requires indices <= m.Keys && indices <= m'.Keys
    requires forall i :: i in indices ==> m'[i] == m[i]
    ensures ViewsOf(m', indices) == ViewsOf(m, indices)
  {
  }

  /// Under a consistent registry, taking indices away takes exactly their views away.
  lemma ViewsOfMinus(r: RegistryState, indices: set<Index>, gone: set<Index>)
    requires RegistryOk(r) && indices <= r.indexToBubble.Keys && gone <= r.indexToBubble.Keys
    ensures ViewsOf(r.indexToBubble, indices - gone) == ViewsOf(r.indexToBubble, indices) - ViewsOf(r.indexToBubble, gone)
  {
    ViewsOfAlive(r, indices);
    ViewsOfAlive(r, gone);
    ViewsOfAlive(r, indices - gone);
  }

  /// A consistent view with nothing dragged is settled: the displayed indices
  /// are registered, the related ones attached to the focused bubble, which
  /// holds the snap.
  lemma ConsistentSettled(r: RegistryState, sc: SceneState, s: AnimatorState)
    requires Consistent(r, sc, s) && sc.dragOffsets == map[]
    ensures Settled(r, s, Displayed(FocusedIndexOf(r, sc), sc.currentRelated), sc.currentRelated, AnchorOf(sc))
    ensures match sc.focusedBubble
            case Some(fb) => s.focusedSnap.Some? && s.focusedSnap.value.item == fb
            case None => s.focusedSnap == None
  {
    assert ViewsOf(r.indexToBubble, sc.currentRelated) - sc.dragOffsets.Keys == ViewsOf(r.indexToBubble, sc.currentRelated);
    if sc.focusedBubble.None? {
      assert ViewsOf(r.indexToBubble, {}) == {};
      AttachNone(0, 0);
    }
  }

  /// A settled view whose related indices are all attached to the focused
  /// bubble, which shows `focus` and holds the snap, is consistent.
  lemma SettledConsistent(r: RegistryState, s: AnimatorState, shown: set<Index>, tied: set<Index>,
                          focus: Index, related: set<Index>, fb: BubbleId)
    requires Settled(r, s, shown, tied, fb) && shown == {focus} + related && tied == related && focus !in related
    requires r.indexToBubble[focus] == fb
    requires s.focusedSnap.Some? && s.focusedSnap.value.item == fb
    ensures Consistent(r, SceneState(related, Some(fb), map[]), s)
  {
    var sc := SceneState(related, Some(fb), map[]);
    assert ViewsOf(r.indexToBubble, related) - sc.dragOffsets.Keys == ViewsOf(r.indexToBubble, related);
    assert LiveIds(r.views) - sc.dragOffsets.Keys == LiveIds(r.views);
  }

  /// With nothing attached, the anchor can move.
  lemma Reanchored(r: RegistryState, s: AnimatorState, shown: set<Index>, a: BubbleId, b: BubbleId)
    requires Settled(r, s, shown, {}, a)
    ensures Settled(r, s, shown, {}, b)
  {
    AttachNone(a, b);
  }

  /// `removeRelatedBehaviors` on the views of `indices`: they are no longer attached.
  lemma UntieOk(r: RegistryState, s: AnimatorState, shown: set<Index>, tied: set<Index>, a: BubbleId, indices: set<Index>)
    requires Settled(r, s, shown, tied, a) && indices <= shown
    ensures Settled(r, UntiedAll(s, ViewsOf(r.indexToBubble, indices)), shown, tied - indices, a)
  {
    ViewsOfMinus(r, tied, indices);
    AttachAllMinus(ViewsOf(r.indexToBubble, tied), ViewsOf(r.indexToBubble, indices), a);
  }

  /// `removeBubble` on the views of detached indices that do not hold the
  /// snap: their indices are no longer shown.
  lemma DropOk(r: RegistryState, s: AnimatorState, shown: set<Index>, tied: set<Index>, a: BubbleId, indices: set<Index>)
    requires Settled(r, s, shown, tied, a) && indices <= shown && indices !! tied
    requires s.focusedSnap.Some? ==> s.focusedSnap.value.item !in ViewsOf(r.indexToBubble, indices)
    ensures var ids := ViewsOf(r.indexToBubble, indices);
            Settled(Dropped(r, ids), WithoutBehaviorsAll(s, ids), shown - indices, tied, a)
  {
    var ids := ViewsOf(r.indexToBubble, indices);
    DroppedOk(r, indices);
    ViewsOfUnion(r, tied, indices);
    ViewsOfUnchanged(r.indexToBubble, Dropped(r, ids).indexToBubble, tied);
  }

  /// `removeBubble` on one detached view that does not hold the snap.
  lemma RetireOk(r: RegistryState, s: AnimatorState, shown: set<Index>, tied: set<Index>, a: BubbleId, bubble: BubbleId)
    requires Settled(r, s, shown, tied, a) && Alive(r.views, bubble) && r.views[bubble].value !in tied
    requires s.focusedSnap.Some? ==> s.focusedSnap.value.item != bubble
    ensures Settled(Removed(r, bubble), WithoutBehaviors(s, bubble), shown - {r.views[bubble].value}, tied, a)
  {
    RemovedOk(r, bubble);
    ViewsOfAlive(r, tied);
    ViewsOfUnchanged(r.indexToBubble, Removed(r, bubble).indexToBubble, tied);
  }

  /// A related bubble becomes the focus: detached first, then snapped.
  lemma PromoteOk(r: RegistryState, s: AnimatorState, shown: set<Index>, tied: set<Index>, a: BubbleId, focus: Index, center: Point)
    requires Settled(r, s, shown, tied, a) && focus in tied
    ensures var fb := r.indexToBubble[focus];
            Settled(r, Snapped(Untied(s, fb), fb, center), shown, tied - {focus}, a)
  {
    var fb := r.indexToBubble[focus];
    UntieOk(r, s, shown, tied, a, {focus});
    assert ViewsOf(r.indexToBubble, {focus}) == {fb};
  }

  /// A fresh view for an index not shown becomes the focus: configured,
  /// added, snapped.
  lemma CreateOk(r: RegistryState, s: AnimatorState, shown: set<Index>, tied: set<Index>, a: BubbleId, focus: Index, center: Point)
    requires Settled(r, s, shown, tied, a) && focus !in shown
    ensures var fb := |r.views|;
            Settled(Added(Configured(r, focus), fb), Snapped(WithBehaviors(s, fb), fb, center), shown + {focus}, tied, a)
  {
    var fb := |r.views|;
    var g := Added(Configured(r, focus), fb);
    AddedOk(r, focus);
    assert ViewsOf(g.indexToBubble, tied) == ViewsOf(r.indexToBubble, tied) by {
      ViewsOfUnchanged(r.indexToBubble, g.indexToBubble, tied);
    }
    assert fb !in s.relatedAttachments by {
      ViewsOfAlive(r, tied);
    }
  }

  /// `addRelatedBehaviors` on a live view: its index is attached too.
  lemma DemoteOk(r: RegistryState, s: AnimatorState, shown: set<Index>, tied: set<Index>, a: BubbleId, bubble: BubbleId)
    requires Settled(r, s, shown, tied, a) && Alive(r.views, bubble)
    ensures Settled(r, Tied(s, bubble, a), shown, tied + {r.views[bubble].value}, a)
  {
    var i := r.views[bubble].value;
    ViewsOfUnion(r, tied, {i});
    assert ViewsOf(r.indexToBubble, {i}) == {bubble};
    AttachAllWith(ViewsOf(r.indexToBubble, tied), bubble, a);
    assert bubble in LiveIds(r.views);
  }

  /// `addRelatedBehaviors` on the views of shown indices.
  lemma RetieOk(r: RegistryState, s: AnimatorState, shown: set<Index>, tied: set<Index>, a: BubbleId, indices: set<Index>)
    requires Settled(r, s, shown, tied, a) && indices <= shown
    ensures Settled(r, TiedAll(s, ViewsOf(r.indexToBubble, indices), a), shown, tied + indices, a)
  {
    ViewsOfUnion(r, tied, indices);
    ViewsOfAlive(r, indices);
    AttachAllUnion(ViewsOf(r.indexToBubble, tied), ViewsOf(r.indexToBubble, indices), a);
  }

  /// The views `Grown` registers for new indices are the fresh ids.
  lemma GrownViewsOf(r: RegistryState, added: seq<Index>, toAdd: set<Index>)
    requires NoDup(added) && (forall i :: i in added <==> i in toAdd)
    ensures toAdd <= Grown(r, added).indexToBubble.Keys
    ensures ViewsOf(Grown(r, added).indexToBubble, toAdd) == FreshIds(|r.views|, |added|)
  {
    var m := Grown(r, added).indexToBubble;
    GrownFresh(r, added);
    FreshIdsRange(|r.views|, |added|);
    forall id | id in FreshIds(|r.views|, |added|) ensures id in ViewsOf(m, toAdd) {
      var k := id - |r.views|;
      assert m[added[k]] == id;
    }
  }

  /// The registry after `Grown` over new indices: consistent, registering
  /// them on the fresh ids, and keeping every other registration.
  lemma GrownRegistry(r: RegistryState, shown: set<Index>, tied: set<Index>, added: seq<Index>, toAdd: set<Index>)
    requires RegistryOk(r) && r.indexToBubble.Keys == shown && tied <= shown && toAdd !! shown
    requires NoDup(added) && (forall i :: i in added <==> i in toAdd)
    ensures var g := Grown(r, added);
            && RegistryOk(g) && g.indexToBubble.Keys == shown + toAdd
            && LiveIds(g.views) == LiveIds(r.views) + FreshIds(|r.views|, |added|)
            && ViewsOf(g.indexToBubble, tied + toAdd) == ViewsOf(r.indexToBubble, tied) + FreshIds(|r.views|, |added|)
  {
    var g := Grown(r, added);
    GrownOk(r, added);
    GrownViews(r, added);
    assert g.indexToBubble.Keys == shown + toAdd && tied <= shown by {
      GrownKeys(r, added);
    }
    assert ViewsOf(g.indexToBubble, tied) == ViewsOf(r.indexToBubble, tied) by {
      GrownKeys(r, added);
      ViewsOfUnchanged(r.indexToBubble, g.indexToBubble, tied);
    }
    GrownViewsOf(r, added, toAdd);
    ViewsOfUnion(g, tied, toAdd);
  }

  /// The related bubbles that `focus` and `reloadData` create: configured,
  /// added and attached, one per new index.
  lemma GrowOk(r: RegistryState, s: AnimatorState, shown: set<Index>, tied: set<Index>, a: BubbleId,
               added: seq<Index>, toAdd: set<Index>)
    requires Settled(r, s, shown, tied, a) && toAdd !! shown
    requires NoDup(added) && (forall i :: i in added <==> i in toAdd)
    ensures Settled(Grown(r, added), JoinedAll(s, FreshIds(|r.views|, |added|), a), shown + toAdd, tied + toAdd, a)
    ensures forall i :: i in shown ==> Grown(r, added).indexToBubble[i] == r.indexToBubble[i]
  {
    GrownKeys(r, added);
    var newIds := FreshIds(|r.views|, |added|);
    GrownRegistry(r, shown, tied, added, toAdd);
    AttachAllUnion(ViewsOf(r.indexToBubble, tied), newIds, a);
    var j := JoinedAll(s, newIds, a);
    assert j.bubbleBehaviors.Keys == s.bubbleBehaviors.Keys + newIds;
  }

  /// The whole view as one value.
  datatype Stage = Stage(r: RegistryState, sc: SceneState, s: AnimatorState)

  /// `focus` moves from `st` to a focus that is not in place, whose related
  /// set does not hold it, while nothing is dragged.
  ghost predicate CanRefocus(st: Stage, newRelated: set<Index>, focusIndex: Index)
  {
    && Consistent(st.r, st.sc, st.s) && st.sc.dragOffsets == map[]
    && FocusedIndexOf(st.r, st.sc) != Some(focusIndex) && focusIndex !in newRelated
  }

  /// The first steps of `focus`: the views to remove are detached and
  /// removed, the keepers detached, and the focus released.
  ghost function DisengagedStage(st: Stage, removeViews: set<BubbleId>, keepViews: set<BubbleId>): Stage
  {
    Stage(Dropped(st.r, removeViews), st.sc.(focusedBubble := None),
          Disengaged(st.s, removeViews, keepViews, st.sc.focusedBubble.Some?))
  }

  /// The new focus: a related index keeps its view, which is detached and
  /// snapped; any other index gets a fresh view, added and snapped.
  ghost function EngagedStage(st: Stage, focusIndex: Index, center: Point): Stage
    requires focusIndex in st.sc.currentRelated ==> focusIndex in st.r.indexToBubble
  {
    if focusIndex in st.sc.currentRelated then
      var fb := st.r.indexToBubble[focusIndex];
      Stage(st.r, st.sc.(focusedBubble := Some(fb)), Snapped(Untied(st.s, fb), fb, center))
    else CreatedStage(st, focusIndex, center)
  }

  /// A fresh view for `focusIndex` becomes the focus: configured, added
  /// and snapped.
  ghost function CreatedStage(st: Stage, focusIndex: Index, center: Point): Stage
  {
    var fb := |st.r.views|;
    Stage(Added(Configured(st.r, focusIndex), fb), st.sc.(focusedBubble := Some(fb)),
          Snapped(WithBehaviors(st.s, fb), fb, center))
  }

  /// The new focus leaves the views before it as they were.
  lemma EngagedKeepsViews(st: Stage, focusIndex: Index, center: Point)
    requires focusIndex in st.sc.currentRelated ==> focusIndex in st.r.indexToBubble
    ensures var st2 := EngagedStage(st, focusIndex, center);
            && st2.sc.focusedBubble.Some?
            && |st2.r.views| >= |st.r.views| && st2.r.views[..|st.r.views|] == st.r.views
            && forall id :: Alive(st.r.views, id) ==> Alive(st2.r.views, id)
  {
    var st2 := EngagedStage(st, focusIndex, center);
    forall id | Alive(st.r.views, id) ensures Alive(st2.r.views, id) {
      assert st2.r.views[id] == st2.r.views[..|st.r.views|][id];
    }
  }

  /// The old focus, if any: attached to the new one when related to it,
  /// removed otherwise.
  ghost function DemotedStage(st: Stage, oldFocused: Option<BubbleId>, newRelated: set<Index>): Stage
    requires st.sc.focusedBubble.Some?
    requires oldFocused.Some? ==> Alive(st.r.views, oldFocused.value)
  {
    match oldFocused
    case None => st
    case Some(f) =>
      if st.r.views[f].value in newRelated then st.(s := Tied(st.s, f, st.sc.focusedBubble.value))
      else Stage(Removed(st.r, f), st.sc, WithoutBehaviors(st.s, f))
  }

  /// The last steps of `focus`: the keepers are attached to the focus, and
  /// a fresh view is added and attached for every index of `added`.
  ghost function AttachedStage(st: Stage, keepViews: set<BubbleId>, added: seq<Index>): Stage
    requires st.sc.focusedBubble.Some?
  {
    GrownStage(st.(s := TiedAll(st.s, keepViews, st.sc.focusedBubble.value)), added)
  }

  /// One related bubble more: a fresh view for `index`, added, with its
  /// behaviours, and attached to the focus.
  ghost function RelatedAddedStage(st: Stage, index: Index): Stage
    requires st.sc.focusedBubble.Some?
  {
    var b := |st.r.views|;
    Stage(Added(Configured(st.r, index), b), st.sc, Tied(WithBehaviors(st.s, b), b, st.sc.focusedBubble.value))
  }

  /// A fresh related bubble for each index of `added`, in that order.
  ghost function GrownStage(st: Stage, added: seq<Index>): Stage
    requires st.sc.focusedBubble.Some?
  {
    Stage(Grown(st.r, added), st.sc, JoinedAll(st.s, FreshIds(|st.r.views|, |added|), st.sc.focusedBubble.value))
  }

  /// Growing by nothing, and by one index more.
  lemma GrownStageNone(st: Stage)
    requires st.sc.focusedBubble.Some?
    ensures GrownStage(st, []) == st
  {
    JoinedNone(st.s, st.sc.focusedBubble.value);
  }

  lemma GrownStageStep(st: Stage, added: seq<Index>, k: nat)
    requires st.sc.focusedBubble.Some? && k < |added|
    ensures GrownStage(st, added[..k + 1]) == RelatedAddedStage(GrownStage(st, added[..k]), added[k])
  {
    var n := |st.r.views|;
    var p := GrownStage(st, added[..k]);
    GrownPrefix(st.r, added, k);
    GrownLength(st.r, added[..k]);
    FreshIdsNext(n, k);
    assert |added[..k + 1]| == k + 1 && |added[..k]| == k;
    JoinedAllNext(st.s, FreshIds(n, |added[..k]|), FreshIds(n, |added[..k + 1]|), |p.r.views|, st.sc.focusedBubble.value);
  }

  /// The views `focus` removes and keeps.
  function RemoveViews(st: Stage, newRelated: set<Index>, focusIndex: Index): set<BubbleId>
    requires ToRemove(newRelated, st.sc.currentRelated, focusIndex) <= st.r.indexToBubble.Keys
  {
    ViewsOf(st.r.indexToBubble, ToRemove(newRelated, st.sc.currentRelated, focusIndex))
  }

  function KeepViews(st: Stage, newRelated: set<Index>): set<BubbleId>
    requires ToKeep(newRelated, st.sc.currentRelated) <= st.r.indexToBubble.Keys
  {
    ViewsOf(st.r.indexToBubble, ToKeep(newRelated, st.sc.currentRelated))
  }

  /// What the first steps of `focus` leave: the old related bubbles that
  /// stay are registered as before, the focus is alive and shows its index,
  /// and a related new focus is registered on a live view.
  lemma DisengagedFacts(st: Stage, newRelated: set<Index>, focusIndex: Index)
    requires CanRefocus(st, newRelated, focusIndex)
    ensures ToRemove(newRelated, st.sc.currentRelated, focusIndex) <= st.r.indexToBubble.Keys
    ensures ToKeep(newRelated, st.sc.currentRelated) <= st.r.indexToBubble.Keys
    ensures var st1 := DisengagedStage(st, RemoveViews(st, newRelated, focusIndex), KeepViews(st, newRelated));
            && st1.r.indexToBubble == st.r.indexToBubble - ToRemove(newRelated, st.sc.currentRelated, focusIndex)
            && |st1.r.views| == |st.r.views|
            && (focusIndex in st.sc.currentRelated ==>
                  focusIndex in st1.r.indexToBubble && Alive(st1.r.views, st1.r.indexToBubble[focusIndex]))
            && (st.sc.focusedBubble.Some? ==>
                  st1.r.views[st.sc.focusedBubble.value] == st.r.views[st.sc.focusedBubble.value]
                  && Alive(st1.r.views, st.sc.focusedBubble.value))
  {
    var R := st.sc.currentRelated;
    var toRemove := ToRemove(newRelated, R, focusIndex);
    DroppedOk(st.r, toRemove);
    if st.sc.focusedBubble.Some? {
      NotAmongViews(st.r, toRemove, st.sc.focusedBubble.value);
    }
  }

  /// The first half of `focus`, up to the old focus.
  ghost function SwitchedStage(st: Stage, newRelated: set<Index>, focusIndex: Index, center: Point): Stage
    requires CanRefocus(st, newRelated, focusIndex)
  {
    DisengagedFacts(st, newRelated, focusIndex);
    var st1 := DisengagedStage(st, RemoveViews(st, newRelated, focusIndex), KeepViews(st, newRelated));
    DemotedStage(EngagedStage(st1, focusIndex, center), st.sc.focusedBubble, newRelated)
  }

  /// `focus(index:)` past its guard, as a transformation of the view. The
  /// iteration order over the indices to create is `added`.
  ghost function Refocused(st: Stage, newRelated: set<Index>, focusIndex: Index, center: Point, added: seq<Index>): Stage
    requires CanRefocus(st, newRelated, focusIndex)
  {
    DisengagedFacts(st, newRelated, focusIndex);
    var st3 := SwitchedStage(st, newRelated, focusIndex, center);
    var st4 := AttachedStage(st3, KeepViews(st, newRelated), added);
    st4.(sc := st4.sc.(currentRelated := newRelated))
  }

  /// The first steps of `focus` keep the bookkeeping: the removed indices
  /// are no longer shown, the removed and kept ones no longer attached, and
  /// the snap is gone.
  lemma {:induction false} DisengagedOk(st: Stage, newRelated: set<Index>, focusIndex: Index)
    requires CanRefocus(st, newRelated, focusIndex)
    ensures ToRemove(newRelated, st.sc.currentRelated, focusIndex) <= st.r.indexToBubble.Keys
    ensures ToKeep(newRelated, st.sc.currentRelated) <= st.r.indexToBubble.Keys
    ensures var R := st.sc.currentRelated;
            var toRemove := ToRemove(newRelated, R, focusIndex);
            var st1 := DisengagedStage(st, RemoveViews(st, newRelated, focusIndex), KeepViews(st, newRelated));
            && Settled(st1.r, st1.s, Displayed(FocusedIndexOf(st.r, st.sc), R) - toRemove,
                       R - toRemove - ToKeep(newRelated, R), AnchorOf(st.sc))
            && st1.s.focusedSnap == None
  {
    var R, fi := st.sc.currentRelated, FocusedIndexOf(st.r, st.sc);
    var toRemove, toKeep := ToRemove(newRelated, R, focusIndex), ToKeep(newRelated, R);
    var shown, a := Displayed(fi, R), AnchorOf(st.sc);
    ConsistentSettled(st.r, st.sc, st.s);
    SwitchTrajectory(newRelated, R, fi, focusIndex);
    DisengagedFacts(st, newRelated, focusIndex);
    var rv, kv := RemoveViews(st, newRelated, focusIndex), KeepViews(st, newRelated);
    UntieOk(st.r, st.s, shown, R, a, toRemove);
    var s1 := UntiedAll(st.s, rv);
    if st.sc.focusedBubble.Some? {
      NotAmongViews(st.r, toRemove, st.sc.focusedBubble.value);
    }
    DropOk(st.r, s1, shown, R - toRemove, a, toRemove);
    var r2, s2 := Dropped(st.r, rv), WithoutBehaviorsAll(s1, rv);
    ViewsOfUnchanged(st.r.indexToBubble, r2.indexToBubble, toKeep);
    UntieOk(r2, s2, shown - toRemove, R - toRemove, a, toKeep);
  }

  /// The new focus keeps the bookkeeping: a promoted index is no longer
  /// attached, a created one is shown; either way it is registered to the
  /// focus, which holds the snap, and the views before it are unchanged.
  lemma EngagedOk(st: Stage, focusIndex: Index, center: Point, shown: set<Index>, tied: set<Index>, a: BubbleId)
    requires Settled(st.r, st.s, shown, tied, a)
    requires focusIndex in st.sc.currentRelated ==> focusIndex in tied
    requires focusIndex !in st.sc.currentRelated ==> focusIndex !in shown
    ensures focusIndex in st.sc.currentRelated ==> focusIndex in st.r.indexToBubble
    ensures var st2 := EngagedStage(st, focusIndex, center);
            && st2.sc.focusedBubble.Some?
            && st2.sc == st.sc.(focusedBubble := st2.sc.focusedBubble)
            && st2.r.indexToBubble == st.r.indexToBubble[focusIndex := st2.sc.focusedBubble.value]
            && |st2.r.views| >= |st.r.views| && st2.r.views[..|st.r.views|] == st.r.views
            && st2.s.focusedSnap == Some(Snap(st2.sc.focusedBubble.value, center))
            && (focusIndex in st.sc.currentRelated ==>
                  && st2.sc.focusedBubble.value == st.r.indexToBubble[focusIndex] && |st2.r.views| == |st.r.views|
                  && Settled(st2.r, st2.s, shown, tied - {focusIndex}, a))
            && (focusIndex !in st.sc.currentRelated ==>
                  && st2.sc.focusedBubble.value == |st.r.views| && |st2.r.views| == |st.r.views| + 1
                  && Settled(st2.r, st2.s, shown + {focusIndex}, tied, a))
  {
    if focusIndex in st.sc.currentRelated {
      PromoteOk(st.r, st.s, shown, tied, a, focusIndex, center);
      assert st.r.indexToBubble[focusIndex := st.r.indexToBubble[focusIndex]] == st.r.indexToBubble;
    } else {
      CreateOk(st.r, st.s, shown, tied, a, focusIndex, center);
    }
  }

  /// The old focus keeps the bookkeeping: once demoted it is attached, once
  /// retired it is no longer shown; it stays alive exactly when related to
  /// the new focus.
  lemma DemotedOk(st: Stage, oldFocused: Option<BubbleId>, newRelated: set<Index>, oldIndex: Option<Index>, shown: set<Index>)
    requires st.sc.focusedBubble.Some? && Settled(st.r, st.s, shown, {}, st.sc.focusedBubble.value)
    requires oldFocused.Some? <==> oldIndex.Some?
    requires oldFocused.Some? ==>
      && Alive(st.r.views, oldFocused.value) && st.r.views[oldFocused.value] == oldIndex
      && st.s.focusedSnap.Some? && st.s.focusedSnap.value.item != oldFocused.value
    ensures var st3 := DemotedStage(st, oldFocused, newRelated);
            && Settled(st3.r, st3.s, shown - Retired(newRelated, oldIndex), Demoted(newRelated, oldIndex),
                       st.sc.focusedBubble.value)
            && st3.r.indexToBubble == st.r.indexToBubble - Retired(newRelated, oldIndex)
            && st3.sc == st.sc && st3.s.focusedSnap == st.s.focusedSnap && |st3.r.views| == |st.r.views|
            && (oldFocused.Some? ==> (Alive(st3.r.views, oldFocused.value) <==> oldIndex.value in newRelated))
  {
    var fb := st.sc.focusedBubble.value;
    if oldFocused.Some? {
      var f := oldFocused.value;
      if oldIndex.value in newRelated {
        assert DemotedStage(st, oldFocused, newRelated) == st.(s := Tied(st.s, f, fb));
        assert Retired(newRelated, oldIndex) == {} && Demoted(newRelated, oldIndex) == {oldIndex.value};
        DemoteOk(st.r, st.s, shown, {}, fb, f);
        assert {} + {oldIndex.value} == {oldIndex.value};
        assert st.r.indexToBubble - {} == st.r.indexToBubble;
      } else {
        assert DemotedStage(st, oldFocused, newRelated) == Stage(Removed(st.r, f), st.sc, WithoutBehaviors(st.s, f));
        assert Retired(newRelated, oldIndex) == {oldIndex.value} && Demoted(newRelated, oldIndex) == {};
        RetireOk(st.r, st.s, shown, {}, fb, f);
      }
    } else {
      assert shown - {} == shown && st.r.indexToBubble - {} == st.r.indexToBubble;
    }
  }

  /// The first half of `focus` leaves the new focus registered and snapped,
  /// shows the new focus and every kept or demoted index with the keepers
  /// not yet attached, and keeps the old focus exactly when related to the
  /// new one.
  lemma SwitchedOk(st: Stage, newRelated: set<Index>, focusIndex: Index, center: Point)
    requires CanRefocus(st, newRelated, focusIndex)
    ensures var R, m := st.sc.currentRelated, st.r.indexToBubble;
            var oldFocus := FocusedIndexOf(st.r, st.sc);
            var st3 := SwitchedStage(st, newRelated, focusIndex, center);
            && st3.sc.focusedBubble.Some?
            && Settled(st3.r, st3.s, Displayed(Some(focusIndex), newRelated) - ToAdd(newRelated, R, oldFocus),
                       Demoted(newRelated, oldFocus), st3.sc.focusedBubble.value)
            && st3.r.indexToBubble == (m - ToRemove(newRelated, R, focusIndex))[focusIndex := st3.sc.focusedBubble.value]
                                      - Retired(newRelated, oldFocus)
            && st3.s.focusedSnap == Some(Snap(st3.sc.focusedBubble.value, center))
            && st3.sc == st.sc.(focusedBubble := st3.sc.focusedBubble)
            && (focusIndex in R ==>
                  focusIndex in m && st3.sc.focusedBubble.value == m[focusIndex] && |st3.r.views| == |st.r.views|)
            && (focusIndex !in R ==> st3.sc.focusedBubble.value == |st.r.views| && |st3.r.views| == |st.r.views| + 1)
            && (st.sc.focusedBubble.Some? ==>
                  (Alive(st3.r.views, st.sc.focusedBubble.value) <==> oldFocus.value in newRelated))
  {
    var R, m, fi := st.sc.currentRelated, st.r.indexToBubble, FocusedIndexOf(st.r, st.sc);
    var toRemove, toKeep := ToRemove(newRelated, R, focusIndex), ToKeep(newRelated, R);
    var a := AnchorOf(st.sc);
    ConsistentSettled(st.r, st.sc, st.s);
    SwitchTrajectory(newRelated, R, fi, focusIndex);
    DisengagedOk(st, newRelated, focusIndex);
    DisengagedFacts(st, newRelated, focusIndex);
    var st1 := DisengagedStage(st, RemoveViews(st, newRelated, focusIndex), KeepViews(st, newRelated));
    var shown1, tied1 := Displayed(fi, R) - toRemove, R - toRemove - toKeep;
    EngagedOk(st1, focusIndex, center, shown1, tied1, a);
    var st2 := EngagedStage(st1, focusIndex, center);
    var fb := st2.sc.focusedBubble.value;
    var shown2 := if focusIndex in R then shown1 else shown1 + {focusIndex};
    Reanchored(st2.r, st2.s, shown2, a, fb);
    if st.sc.focusedBubble.Some? {
      var f := st.sc.focusedBubble.value;
      assert f < |st1.r.views| && st2.r.views[f] == st2.r.views[..|st1.r.views|][f];
      assert st2.r.views[f] == fi;
      assert fb != f by {
        if focusIndex in R {
          assert st.r.views[m[focusIndex]] == Some(focusIndex);
        }
      }
    }
    DemotedOk(st2, st.sc.focusedBubble, newRelated, fi, shown2);
  }

  /// The last steps of `focus` (or `reloadData`) close the bookkeeping:
  /// once the keepers are attached and the new indices created and
  /// attached, the view is consistent, focused on `focusIndex` with
  /// `newRelated`, and every index shown before keeps its bubble.
  lemma AttachedOk(st: Stage, newRelated: set<Index>, focusIndex: Index, shown: set<Index>, tied: set<Index>,
                   toKeep: set<Index>, keepViews: set<BubbleId>, added: seq<Index>, toAdd: set<Index>)
    requires st.sc.focusedBubble.Some? && Settled(st.r, st.s, shown, tied, st.sc.focusedBubble.value)
    requires st.sc.dragOffsets == map[]
    requires focusIndex in st.r.indexToBubble && st.r.indexToBubble[focusIndex] == st.sc.focusedBubble.value
    requires st.s.focusedSnap.Some? && st.s.focusedSnap.value.item == st.sc.focusedBubble.value
    requires toKeep <= shown && keepViews == ViewsOf(st.r.indexToBubble, toKeep) && toAdd !! shown
    requires shown + toAdd == {focusIndex} + newRelated && tied + toKeep + toAdd == newRelated && focusIndex !in newRelated
    requires NoDup(added) && (forall i :: i in added <==> i in toAdd)
    ensures var st4 := AttachedStage(st, keepViews, added);
            var st' := st4.(sc := st4.sc.(currentRelated := newRelated));
            && Consistent(st'.r, st'.sc, st'.s) && st'.sc == st.sc.(currentRelated := newRelated)
            && st.sc.focusedBubble.value < |st'.r.views| && st'.r.views[st.sc.focusedBubble.value] == Some(focusIndex)
            && |st'.r.views| == |st.r.views| + |added| && st'.r.views[..|st.r.views|] == st.r.views
            && (forall i :: i in shown ==> i in st'.r.indexToBubble && st'.r.indexToBubble[i] == st.r.indexToBubble[i])
  {
    var fb := st.sc.focusedBubble.value;
    var st4 := AttachedStage(st, keepViews, added);
    AttachedSettled(st, shown, tied, toKeep, keepViews, added, toAdd);
    GrownViews(st.r, added);
    SettledConsistent(st4.r, st4.s, shown + toAdd, tied + toKeep + toAdd, focusIndex, newRelated, fb);
  }

  /// Attaching the keepers and growing the new indices keeps the
  /// bookkeeping, and every index shown before keeps its bubble.
  lemma AttachedSettled(st: Stage, shown: set<Index>, tied: set<Index>,
                        toKeep: set<Index>, keepViews: set<BubbleId>, added: seq<Index>, toAdd: set<Index>)
    requires st.sc.focusedBubble.Some? && Settled(st.r, st.s, shown, tied, st.sc.focusedBubble.value)
    requires toKeep <= shown && keepViews == ViewsOf(st.r.indexToBubble, toKeep) && toAdd !! shown
    requires NoDup(added) && (forall i :: i in added <==> i in toAdd)
    ensures var st4 := AttachedStage(st, keepViews, added);
            && Settled(st4.r, st4.s, shown + toAdd, tied + toKeep + toAdd, st.sc.focusedBubble.value)
            && st4.s.focusedSnap == st.s.focusedSnap
            && (forall i :: i in shown ==> i in st4.r.indexToBubble && st4.r.indexToBubble[i] == st.r.indexToBubble[i])
  {
    var fb := st.sc.focusedBubble.value;
    var s4 := TiedAll(st.s, keepViews, fb);
    RetieOk(st.r, st.s, shown, tied, fb, toKeep);
    GrowOk(st.r, s4, shown, tied + toKeep, fb, added, toAdd);
  }

  /// `focus(index:)` past its guard leaves a consistent view focused on the
  /// index, with its related set and nothing dragged.
  lemma RefocusedOk(st: Stage, newRelated: set<Index>, focusIndex: Index, center: Point, added: seq<Index>)
    requires CanRefocus(st, newRelated, focusIndex)
    requires NoDup(added)
    requires forall i :: i in added <==> i in ToAdd(newRelated, st.sc.currentRelated, FocusedIndexOf(st.r, st.sc))
    ensures var st' := Refocused(st, newRelated, focusIndex, center, added);
            && Consistent(st'.r, st'.sc, st'.s) && FocusedIndexOf(st'.r, st'.sc) == Some(focusIndex)
            && st'.sc.currentRelated == newRelated && st'.sc.dragOffsets == map[]
  {
    var R, fi := st.sc.currentRelated, FocusedIndexOf(st.r, st.sc);
    var toKeep, toAdd := ToKeep(newRelated, R), ToAdd(newRelated, R, fi);
    SwitchedOk(st, newRelated, focusIndex, center);
    SwitchedReady(st, newRelated, focusIndex, center);
    var st3 := SwitchedStage(st, newRelated, focusIndex, center);
    AttachedOk(st3, newRelated, focusIndex, Displayed(Some(focusIndex), newRelated) - toAdd, Demoted(newRelated, fi),
               toKeep, KeepViews(st, newRelated), added, toAdd);
  }

  /// What `focus(index:)` does to the bubbles: a related index keeps its
  /// bubble as the focus and any other gets a fresh one; the related
  /// indices that stay keep their bubbles; the old focus survives exactly
  /// when related to the new one; and one view is created per new index.
  lemma RefocusedBubbles(st: Stage, newRelated: set<Index>, focusIndex: Index, center: Point, added: seq<Index>)
    requires CanRefocus(st, newRelated, focusIndex)
    requires forall i :: i in added <==> i in ToAdd(newRelated, st.sc.currentRelated, FocusedIndexOf(st.r, st.sc))
    ensures var R, m := st.sc.currentRelated, st.r.indexToBubble;
            var st' := Refocused(st, newRelated, focusIndex, center, added);
            && (focusIndex in R ==> focusIndex in m && st'.sc.focusedBubble == Some(m[focusIndex]))
            && (focusIndex !in R ==> st'.sc.focusedBubble == Some(|st.r.views|))
            && (forall i :: i in ToKeep(newRelated, R) ==>
                  i in m && i in st'.r.indexToBubble && st'.r.indexToBubble[i] == m[i])
            && (st.sc.focusedBubble.Some? ==>
                  (Alive(st'.r.views, st.sc.focusedBubble.value) <==> FocusedIndexOf(st.r, st.sc).value in newRelated))
            && |st'.r.views| == |st.r.views| + (if focusIndex in R then 0 else 1) + |added|
  {
    SwitchedShape(st, newRelated, focusIndex, center);
    SwitchedReady(st, newRelated, focusIndex, center);
    var st3 := SwitchedStage(st, newRelated, focusIndex, center);
    GrownKeys(st3.r, added);
    GrownViews(st3.r, added);
    if st.sc.focusedBubble.Some? {
      var f := st.sc.focusedBubble.value;
      var g := Grown(st3.r, added);
      assert g.views[f] == g.views[..|st3.r.views|][f];
    }
  }

  /// `focus(index:)` with the written `toAdd`, from a view with nothing
  /// focused to a focus related to the sentinel -2: -2 becomes related but
  /// never gets a bubble, and the view is left inconsistent.
  lemma RefocusedAsWrittenLosesSentinel(st: Stage, newRelated: set<Index>, focusIndex: Index, center: Point, added: seq<Index>)
    requires CanRefocus(st, newRelated, focusIndex)
    requires FocusedIndexOf(st.r, st.sc) == None && NoFocusSentinel in newRelated
    requires forall i :: i in added <==> i in ToAddAsWritten(newRelated, st.sc.currentRelated, None)
    ensures var st' := Refocused(st, newRelated, focusIndex, center, added);
            && NoFocusSentinel in st'.sc.currentRelated && NoFocusSentinel !in st'.r.indexToBubble
            && !Consistent(st'.r, st'.sc, st'.s)
  {
    SwitchedShape(st, newRelated, focusIndex, center);
    SwitchedReady(st, newRelated, focusIndex, center);
    var st3 := SwitchedStage(st, newRelated, focusIndex, center);
    assert st.r.indexToBubble == map[];
    assert NoFocusSentinel !in st3.r.indexToBubble;
    GrownKeys(st3.r, added);
  }

  /// What the first half of `focus` does to the bubbles, without the
  /// bookkeeping.
  lemma SwitchedShape(st: Stage, newRelated: set<Index>, focusIndex: Index, center: Point)
    requires CanRefocus(st, newRelated, focusIndex)
    ensures var R, m := st.sc.currentRelated, st.r.indexToBubble;
            var oldFocus := FocusedIndexOf(st.r, st.sc);
            var st3 := SwitchedStage(st, newRelated, focusIndex, center);
            && st3.sc.focusedBubble.Some?
            && st3.r.indexToBubble == (m - ToRemove(newRelated, R, focusIndex))[focusIndex := st3.sc.focusedBubble.value]
                                      - Retired(newRelated, oldFocus)
            && (focusIndex in R ==>
                  focusIndex in m && st3.sc.focusedBubble.value == m[focusIndex] && |st3.r.views| == |st.r.views|)
            && (focusIndex !in R ==> st3.sc.focusedBubble.value == |st.r.views| && |st3.r.views| == |st.r.views| + 1)
            && (st.sc.focusedBubble.Some? ==>
                  (Alive(st3.r.views, st.sc.focusedBubble.value) <==> oldFocus.value in newRelated))
  {
    SwitchedOk(st, newRelated, focusIndex, center);
  }

  /// After the first half of `focus` the keepers are shown on their old
  /// bubbles, the indices to add are not shown, and together with the
  /// demoted old focus they make up the new related set.
  lemma SwitchedReady(st: Stage, newRelated: set<Index>, focusIndex: Index, center: Point)
    requires CanRefocus(st, newRelated, focusIndex)
    ensures ToKeep(newRelated, st.sc.currentRelated) <= st.r.indexToBubble.Keys
    ensures var R, m := st.sc.currentRelated, st.r.indexToBubble;
            var oldFocus := FocusedIndexOf(st.r, st.sc);
            var toKeep, toAdd := ToKeep(newRelated, R), ToAdd(newRelated, R, oldFocus);
            var shown := Displayed(Some(focusIndex), newRelated) - toAdd;
            var st3 := SwitchedStage(st, newRelated, focusIndex, center);
            && toKeep <= shown && toAdd !! shown
            && shown + toAdd == {focusIndex} + newRelated && Demoted(newRelated, oldFocus) + toKeep + toAdd == newRelated
            && toKeep <= st3.r.indexToBubble.Keys
            && (forall i :: i in toKeep ==> st3.r.indexToBubble[i] == m[i])
            && KeepViews(st, newRelated) == ViewsOf(st3.r.indexToBubble, toKeep)
  {
    var R, m, fi := st.sc.currentRelated, st.r.indexToBubble, FocusedIndexOf(st.r, st.sc);
    var toKeep := ToKeep(newRelated, R);
    ConsistentSettled(st.r, st.sc, st.s);
    SwitchedOk(st, newRelated, focusIndex, center);
    BuildTrajectory(newRelated, R, fi, focusIndex);
    DisengagedFacts(st, newRelated, focusIndex);
    var st3 := SwitchedStage(st, newRelated, focusIndex, center);
    ViewsOfUnchanged(m, st3.r.indexToBubble, toKeep);
  }
}
