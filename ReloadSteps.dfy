/** The steps of `reloadData` as transformations of the view: the focus goes,
    every related bubble goes, and a fresh focus with fresh related bubbles
    is built from the data source. The method as written removes the
    related bubbles while they are still attached to the old focus; the
    corrected one detaches them first. */
module ReloadSteps {
  import opened Core
  import opened FocusSets
  import opened Animator
  import opened ViewState
  import opened FocusSteps

  /// The old focus, if any, loses its snap and is removed.
  ghost function FocusDropped(st: Stage): Stage
    requires st.sc.focusedBubble.Some? ==> Alive(st.r.views, st.sc.focusedBubble.value)
  {
    match st.sc.focusedBubble
    case None => st
    case Some(f) => Stage(Removed(st.r, f), st.sc.(focusedBubble := None), WithoutBehaviors(Unsnapped(st.s), f))
  }

  /// `currentRelated.map{indexToBubble[$0]}.flatMap{$0}`: the views of the
  /// related indices that are registered.
  function RelatedViews(st: Stage): set<BubbleId>
  {
    ViewsOf(st.r.indexToBubble, st.sc.currentRelated * st.r.indexToBubble.Keys)
  }

  /// Every related bubble is removed; with `untie` it is detached first,
  /// as the animator protocol asks.
  ghost function RelatedDropped(st: Stage, untie: bool): Stage
  {
    var rv := RelatedViews(st);
    Stage(Dropped(st.r, rv), st.sc, WithoutBehaviorsAll(if untie then UntiedAll(st.s, rv) else st.s, rv))
  }

  /// `reloadData()` with a data source `ds`, as a transformation of the
  /// view. `untie` tells the corrected method (related bubbles detached
  /// before removal) from the one as written.
  ghost function Reloaded(st: Stage, ds: DataSource, center: Point, added: seq<Index>, untie: bool): Stage
    requires st.sc.focusedBubble.Some? ==> Alive(st.r.views, st.sc.focusedBubble.value)
  {
    var st2 := RelatedDropped(FocusDropped(st), untie);
    var st3 := CreatedStage(st2, ds.focusedBubble, center);
    GrownStage(st3.(sc := st3.sc.(currentRelated := ds.relatedForBubble(ds.focusedBubble))), added)
  }

  /// The first steps of the corrected `reloadData` empty the screen: no
  /// index is registered, no view is alive or attached, and there is no
  /// focus and no snap.
  lemma ClearedOk(st: Stage)
    requires Consistent(st.r, st.sc, st.s) && st.sc.dragOffsets == map[]
    ensures var st2 := RelatedDropped(FocusDropped(st), true);
            && Settled(st2.r, st2.s, {}, {}, AnchorOf(st.sc)) && st2.s.focusedSnap == None
            && st2.sc == st.sc.(focusedBubble := None) && |st2.r.views| == |st.r.views|
  {
    var R, fi, a := st.sc.currentRelated, FocusedIndexOf(st.r, st.sc), AnchorOf(st.sc);
    ConsistentSettled(st.r, st.sc, st.s);
    var st1 := FocusDropped(st);
    if st.sc.focusedBubble.Some? {
      RetireOk(st.r, Unsnapped(st.s), Displayed(fi, R), R, a, st.sc.focusedBubble.value);
      assert Displayed(fi, R) - {fi.value} == R;
    }
    assert R * st1.r.indexToBubble.Keys == R;
    UntieOk(st1.r, st1.s, R, R, a, R);
    var s1 := UntiedAll(st1.s, RelatedViews(st1));
    assert R - R == {};
    DropOk(st1.r, s1, R, {}, a, R);
  }

  /// From an empty screen, a fresh focus and a fresh bubble per related
  /// index make a consistent view focused with `related`.
  lemma RebuiltOk(st: Stage, a: BubbleId, focusIndex: Index, related: set<Index>, center: Point, added: seq<Index>)
    requires Settled(st.r, st.s, {}, {}, a) && st.s.focusedSnap == None && st.sc.dragOffsets == map[]
    requires focusIndex !in related && NoDup(added) && (forall i :: i in added <==> i in related)
    ensures var st3 := CreatedStage(st, focusIndex, center);
            var st' := GrownStage(st3.(sc := st3.sc.(currentRelated := related)), added);
            && Consistent(st'.r, st'.sc, st'.s) && st'.sc == SceneState(related, Some(|st.r.views|), map[])
  {
    var fb := |st.r.views|;
    var r3 := Added(Configured(st.r, focusIndex), fb);
    RebuiltSettled(st.r, st.s, a, focusIndex, related, center, added);
    EmptyUnion(focusIndex, related);
    SettledConsistent(Grown(r3, added), JoinedAll(Snapped(WithBehaviors(st.s, fb), fb, center), FreshIds(|r3.views|, |added|), fb),
                      {focusIndex} + related, related, focusIndex, related, fb);
  }

  lemma EmptyUnion(focusIndex: Index, related: set<Index>)
    ensures {} + {focusIndex} + related == {focusIndex} + related && {} + related == related
  {
  }

  /// The bookkeeping of the rebuild: the focus and the related indices are
  /// shown, the related ones attached to the focus, which holds the snap.
  lemma RebuiltSettled(r: RegistryState, s: AnimatorState, a: BubbleId, focusIndex: Index, related: set<Index>,
                       center: Point, added: seq<Index>)
    requires Settled(r, s, {}, {}, a) && s.focusedSnap == None
    requires focusIndex !in related && NoDup(added) && (forall i :: i in added <==> i in related)
    ensures var fb := |r.views|;
            var r3 := Added(Configured(r, focusIndex), fb);
            var s' := JoinedAll(Snapped(WithBehaviors(s, fb), fb, center), FreshIds(|r3.views|, |added|), fb);
            && Settled(Grown(r3, added), s', {} + {focusIndex} + related, {} + related, fb)
            && Grown(r3, added).indexToBubble[focusIndex] == fb
            && s'.focusedSnap == Some(Snap(fb, center))
  {
    var fb := |r.views|;
    var r3 := Added(Configured(r, focusIndex), fb);
    var s3 := Snapped(WithBehaviors(s, fb), fb, center);
    CreateOk(r, s, {}, {}, a, focusIndex, center);
    Reanchored(r3, s3, {} + {focusIndex}, a, fb);
    GrowOk(r3, s3, {} + {focusIndex}, {}, fb, added, related);
  }

  /// The views after the rebuild: the old ones unchanged, then the focus,
  /// then one live view per added index.
  lemma RebuiltViews(r: RegistryState, focusIndex: Index, added: seq<Index>)
    ensures var g := Grown(Added(Configured(r, focusIndex), |r.views|), added);
            && |g.views| == |r.views| + 1 + |added| && g.views[..|r.views|] == r.views
            && g.views[|r.views|] == Some(focusIndex)
            && forall id :: |r.views| <= id < |g.views| ==> Alive(g.views, id)
  {
    var fb := |r.views|;
    var r3 := Added(Configured(r, focusIndex), fb);
    GrownViews(r3, added);
    var g := Grown(r3, added);
    assert g.views[fb] == g.views[..|r3.views|][fb];
    forall id | fb < id < |g.views| ensures Alive(g.views, id) {
      var k := id - |r3.views|;
      assert g.views[|r3.views| + k] == Some(added[k]);
    }
    assert g.views[..fb] == g.views[..|r3.views|][..fb];
  }

  /// The corrected `reloadData` leaves a consistent view focused on the
  /// data source's focus, on a fresh bubble, with that focus's related set
  /// and nothing dragged.
  lemma ReloadedOk(st: Stage, ds: DataSource, center: Point, added: seq<Index>)
    requires Consistent(st.r, st.sc, st.s) && st.sc.dragOffsets == map[]
    requires ds.focusedBubble !in ds.relatedForBubble(ds.focusedBubble)
    requires NoDup(added) && forall i :: i in added <==> i in ds.relatedForBubble(ds.focusedBubble)
    ensures var st' := Reloaded(st, ds, center, added, true);
            && Consistent(st'.r, st'.sc, st'.s) && FocusedIndexOf(st'.r, st'.sc) == Some(ds.focusedBubble)
            && st'.sc == SceneState(ds.relatedForBubble(ds.focusedBubble), Some(|st.r.views|), map[])
  {
    var st2 := RelatedDropped(FocusDropped(st), true);
    ClearedOk(st);
    RebuiltOk(st2, AnchorOf(st.sc), ds.focusedBubble, ds.relatedForBubble(ds.focusedBubble), center, added);
    RebuiltViews(st2.r, ds.focusedBubble, added);
  }

  /// Every bubble shown before `reloadData` (either version) is removed:
  /// the live views are exactly the focus and one per related index, all
  /// created by it.
  lemma ReloadedViews(st: Stage, ds: DataSource, center: Point, added: seq<Index>, untie: bool)
    requires Consistent(st.r, st.sc, st.s) && st.sc.dragOffsets == map[]
    ensures var st' := Reloaded(st, ds, center, added, untie);
            && |st'.r.views| == |st.r.views| + 1 + |added|
            && forall id :: 0 <= id < |st'.r.views| ==> (Alive(st'.r.views, id) <==> id >= |st.r.views|)
  {
    ClearedViews(st, untie);
    var st2 := RelatedDropped(FocusDropped(st), untie);
    var n := |st2.r.views|;
    RebuiltViews(st2.r, ds.focusedBubble, added);
    var g := Grown(Added(Configured(st2.r, ds.focusedBubble), n), added);
    assert Reloaded(st, ds, center, added, untie).r == g;
    forall id | 0 <= id < n ensures !Alive(g.views, id) {
      assert !Alive(st2.r.views, id);
      assert g.views[id] == g.views[..n][id] == st2.r.views[id];
    }
  }

  /// The removals of `reloadData` leave no view alive.
  lemma ClearedViews(st: Stage, untie: bool)
    requires RegistryOk(st.r) && ShapeOk(st.r, st.sc)
    ensures var st2 := RelatedDropped(FocusDropped(st), untie);
            && RegistryOk(st2.r) && st2.r.indexToBubble == map[]
            && |st2.r.views| == |st.r.views| && forall id :: !Alive(st2.r.views, id)
  {
    var R := st.sc.currentRelated;
    var st1 := FocusDropped(st);
    if st.sc.focusedBubble.Some? {
      RemovedOk(st.r, st.sc.focusedBubble.value);
    }
    assert R * st1.r.indexToBubble.Keys == R;
    DroppedOk(st1.r, R);
  }

  /// A freshly installed animator, which holds nothing yet, is brought in
  /// step with the view by `reloadData` in either version: the removals
  /// find nothing to detach, and the rebuild gives a consistent view
  /// focused on the data source's focus with its related set.
  lemma ResyncedOk(st: Stage, ds: DataSource, center: Point, added: seq<Index>, untie: bool)
    requires RegistryOk(st.r) && ShapeOk(st.r, st.sc) && st.s == Idle && st.sc.dragOffsets == map[]
    requires ds.focusedBubble !in ds.relatedForBubble(ds.focusedBubble)
    requires NoDup(added) && forall i :: i in added <==> i in ds.relatedForBubble(ds.focusedBubble)
    ensures var st' := Reloaded(st, ds, center, added, untie);
            && Consistent(st'.r, st'.sc, st'.s) && FocusedIndexOf(st'.r, st'.sc) == Some(ds.focusedBubble)
            && st'.sc == SceneState(ds.relatedForBubble(ds.focusedBubble), Some(|st.r.views|), map[])
  {
    var a := AnchorOf(st.sc);
    var st2 := RelatedDropped(FocusDropped(st), untie);
    ClearedViews(st, untie);
    assert st2.s == Idle;
    assert LiveIds(st2.r.views) == {};
    AttachNone(a, a);
    assert ViewsOf(st2.r.indexToBubble, {}) == {};
    RebuiltOk(st2, a, ds.focusedBubble, ds.relatedForBubble(ds.focusedBubble), center, added);
    RebuiltViews(st2.r, ds.focusedBubble, added);
  }

  /// When nothing was related the two versions agree.
  lemma ReloadedAsWrittenAgrees(st: Stage, ds: DataSource, center: Point, added: seq<Index>)
    requires Consistent(st.r, st.sc, st.s) && st.sc.currentRelated == {}
    ensures Reloaded(st, ds, center, added, false) == Reloaded(st, ds, center, added, true)
  {
    var st1 := FocusDropped(st);
    assert st1.sc.currentRelated * st1.r.indexToBubble.Keys == {};
    assert RelatedViews(st1) == {};
    UntiedNone(st1.s);
  }

  /// `reloadData` as written, with related bubbles on screen, breaks the
  /// animator protocol (`removeBehaviors` on a bubble that is still
  /// attached) and leaves the attachments of the removed bubbles in place.
  lemma ReloadedAsWrittenBreaksProtocol(st: Stage, ds: DataSource, center: Point, added: seq<Index>)
    requires Consistent(st.r, st.sc, st.s) && st.sc.dragOffsets == map[] && st.sc.currentRelated != {}
    ensures var st' := Reloaded(st, ds, center, added, false);
            && !st'.s.protocolKept
            && RelatedViews(st) != {}
            && forall b :: b in RelatedViews(st) ==> b in st'.s.relatedAttachments && !Alive(st'.r.views, b)
  {
    AsWrittenDropped(st);
    var st2 := RelatedDropped(FocusDropped(st), false);
    RebuildKeeps(st2, ds.focusedBubble, ds.relatedForBubble(ds.focusedBubble), center, added);
  }

  /// Removing the related bubbles while they are attached: the protocol is
  /// broken, and each of them is gone but still attached.
  lemma AsWrittenDropped(st: Stage)
    requires Consistent(st.r, st.sc, st.s) && st.sc.dragOffsets == map[] && st.sc.currentRelated != {}
    ensures var st2 := RelatedDropped(FocusDropped(st), false);
            && RelatedViews(st) != {} && !st2.s.protocolKept
            && forall b :: b in RelatedViews(st) ==> b in st2.s.relatedAttachments && b < |st2.r.views| && st2.r.views[b] == None
  {
    var R, m := st.sc.currentRelated, st.r.indexToBubble;
    var st1 := FocusDropped(st);
    assert R * m.Keys == R;
    assert R * st1.r.indexToBubble.Keys == R;
    ViewsOfUnchanged(m, st1.r.indexToBubble, R);
    assert ViewsOf(m, R) - st.sc.dragOffsets.Keys == ViewsOf(m, R);
    ViewsOfAlive(st.r, R);
    var i :| i in R;
    assert m[i] in RelatedViews(st);
  }

  /// The rebuild keeps what the removals left: a broken protocol stays
  /// broken, attachments stay, and the old views are unchanged.
  lemma RebuildKeeps(st: Stage, focusIndex: Index, related: set<Index>, center: Point, added: seq<Index>)
    ensures var st3 := CreatedStage(st, focusIndex, center);
            var st' := GrownStage(st3.(sc := st3.sc.(currentRelated := related)), added);
            && (!st.s.protocolKept ==> !st'.s.protocolKept)
            && st.s.relatedAttachments.Keys <= st'.s.relatedAttachments.Keys
            && |st'.r.views| >= |st.r.views| && forall b :: 0 <= b < |st.r.views| ==> st'.r.views[b] == st.r.views[b]
  {
    RebuiltViews(st.r, focusIndex, added);
    var g := Grown(Added(Configured(st.r, focusIndex), |st.r.views|), added);
    forall b | 0 <= b < |st.r.views| ensures g.views[b] == st.r.views[b] {
      assert g.views[b] == g.views[..|st.r.views|][b];
    }
  }
}
