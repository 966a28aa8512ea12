/** The older revisions of the reconciler (`BubblesView` and
    `BubbleViewController` under `BubbleViewController/Classes`, which keep
    the same books) as values. The view manages the physics itself: every
    live bubble has a behaviour, only related bubbles own a pan recogniser,
    and each related bubble is attached to the focused one. The steps of
    `focus` and `reloadData` are transformations of a `Snapshot`, and
    `Settled` is the bookkeeping they keep between steps. */
module LegacySteps {
  import opened Core
  import opened FocusSets
  import opened ViewState
  import opened Animator
  import FocusSteps

  /// The fields of the older view: the arena of bubble views and
  /// `indexToBubble`, the bubbles owning a tap or a pan recogniser or a
  /// behaviour, the attachments (each related bubble mapped to the bubble it
  /// is attached to), `currentRelated`, the focused bubble and the bubble
  /// held by `focusedSnap`.
  datatype Snapshot = Snapshot(
    views: seq<Option<Index>>,
    indexToBubble: map<Index, BubbleId>,
    tapRecognizers: set<BubbleId>,
    panRecognizers: set<BubbleId>,
    bubbleBehaviors: set<BubbleId>,
    relatedAttachments: map<BubbleId, BubbleId>,
    currentRelated: set<Index>,
    focusedBubble: Option<BubbleId>,
    focusedSnap: Option<BubbleId>)

  /// A freshly initialised view: nothing on screen.
  const Empty := Snapshot([], map[], {}, {}, {}, map[], {}, None, None)

  /// The arena and `indexToBubble`, seen as a registry whose recognisers are
  /// the live views.
  function Arena(l: Snapshot): RegistryState
  {
    RegistryState(l.views, l.indexToBubble, LiveIds(l.views), LiveIds(l.views))
  }

  /// `focusedBubble?.index`.
  function FocusIndexOf(l: Snapshot): Option<Index>
  {
    match l.focusedBubble
    case Some(fb) => if Alive(l.views, fb) then Some(l.views[fb].value) else None
    case None => None
  }

  /// The bubble related bubbles are attached to (any bubble without a focus).
  function Anchor(l: Snapshot): BubbleId
  {
    match l.focusedBubble
    case Some(fb) => fb
    case None => 0
  }

  /// `dataSource.configureBubble(index)` and `bubble.index = index`: a new
  /// view in the arena.
  function Made(l: Snapshot, index: Index): Snapshot
  {
    l.(views := l.views + [Some(index)])
  }

  /// `addBubble`: a tap recogniser, the registration under the bubble's
  /// index, and its behaviour.
  function BubbleAdded(l: Snapshot, bubble: BubbleId): Snapshot
    requires Alive(l.views, bubble)
  {
    l.(indexToBubble := l.indexToBubble[l.views[bubble].value := bubble],
       tapRecognizers := l.tapRecognizers + {bubble},
       bubbleBehaviors := l.bubbleBehaviors + {bubble})
  }

  /// A fresh view for `index`, added.
  function BubbleCreated(l: Snapshot, index: Index): Snapshot
  {
    BubbleAdded(Made(l, index), |l.views|)
  }

  /// `removeBubble`: the tap recogniser, the behaviour and the registration
  /// go, and the index is niled. The pan recogniser is left alone.
  function BubbleRemoved(l: Snapshot, bubble: BubbleId): Snapshot
    requires Alive(l.views, bubble)
  {
    l.(views := l.views[bubble := None],
       indexToBubble := l.indexToBubble - {l.views[bubble].value},
       tapRecognizers := l.tapRecognizers - {bubble},
       bubbleBehaviors := l.bubbleBehaviors - {bubble})
  }

  /// `configureFocused`: the bubble is snapped and becomes the focus.
  function FocusConfigured(l: Snapshot, bubble: BubbleId): Snapshot
  {
    l.(focusedSnap := Some(bubble), focusedBubble := Some(bubble))
  }

  /// `disengageFocused`: the snap and the focus go. As written it also
  /// drops the bubble's tap recogniser; `keepTap` leaves it in place.
  function FocusDisengaged(l: Snapshot, bubble: BubbleId, keepTap: bool): Snapshot
  {
    l.(tapRecognizers := if keepTap then l.tapRecognizers else l.tapRecognizers - {bubble},
       focusedBubble := None, focusedSnap := None)
  }

  /// `configureRelated` and `disengageRelated`: the pan recogniser.
  function RelatedConfigured(l: Snapshot, bubble: BubbleId): Snapshot
  {
    l.(panRecognizers := l.panRecognizers + {bubble})
  }

  function RelatedDisengaged(l: Snapshot, bubble: BubbleId): Snapshot
  {
    l.(panRecognizers := l.panRecognizers - {bubble})
  }

  /// `addAttachment`: the bubble is attached to the focused one.
  function AttachmentAdded(l: Snapshot, bubble: BubbleId): Snapshot
    requires l.focusedBubble.Some?
  {
    l.(relatedAttachments := l.relatedAttachments[bubble := l.focusedBubble.value])
  }

  /// `removeAttachment`.
  function AttachmentRemoved(l: Snapshot, bubble: BubbleId): Snapshot
  {
    l.(relatedAttachments := l.relatedAttachments - {bubble})
  }

  /// `ids.forEach{disengageRelated($0)}`.
  function RelatedDisengagedAll(l: Snapshot, ids: set<BubbleId>): Snapshot
  {
    l.(panRecognizers := l.panRecognizers - ids)
  }

  /// `ids.forEach{removeAttachment($0)}`.
  function AttachmentsRemovedAll(l: Snapshot, ids: set<BubbleId>): Snapshot
  {
    l.(relatedAttachments := l.relatedAttachments - ids)
  }

  /// `ids.forEach{removeBubble($0)}`.
  ghost function BubblesRemovedAll(l: Snapshot, ids: set<BubbleId>): Snapshot
  {
    var d := Dropped(Arena(l), ids);
    l.(views := d.views, indexToBubble := d.indexToBubble,
       tapRecognizers := l.tapRecognizers - ids,
       bubbleBehaviors := l.bubbleBehaviors - ids)
  }

  /// `ids.forEach{addAttachment($0)}`.
  ghost function AttachmentsAddedAll(l: Snapshot, ids: set<BubbleId>): Snapshot
    requires l.focusedBubble.Some?
  {
    l.(relatedAttachments := l.relatedAttachments + ConstMap(ids, l.focusedBubble.value))
  }

  /// One new related bubble: configured, added, given a pan recogniser and
  /// attached to the focus.
  function RelatedAdded(l: Snapshot, index: Index): Snapshot
    requires l.focusedBubble.Some?
  {
    var b := |l.views|;
    AttachmentAdded(RelatedConfigured(BubbleCreated(l, index), b), b)
  }

  /// A new related bubble for each index of `added`, in that order.
  function Grown(l: Snapshot, added: seq<Index>): (g: Snapshot)
    requires l.focusedBubble.Some?
    ensures g.focusedBubble == l.focusedBubble && g.currentRelated == l.currentRelated
    decreases |added|
  {
    if added == [] then l
    else RelatedAdded(Grown(l, added[..|added| - 1]), added[|added| - 1])
  }

  /// The loops over sets, one element at a time.
  lemma RemovedAllStep(l: Snapshot, done: set<BubbleId>, bubble: BubbleId)
    requires Alive(l.views, bubble) && bubble !in done
    ensures Alive(BubblesRemovedAll(l, done).views, bubble)
    ensures BubbleRemoved(BubblesRemovedAll(l, done), bubble) == BubblesRemovedAll(l, done + {bubble})
  {
    DroppedStep(Arena(l), done, bubble);
  }

  lemma RemovedAllNone(l: Snapshot)
    ensures BubblesRemovedAll(l, {}) == l
  {
    DroppedNone(Arena(l));
  }

  lemma AttachedAllStep(l: Snapshot, done: set<BubbleId>, bubble: BubbleId)
    requires l.focusedBubble.Some?
    ensures AttachmentAdded(AttachmentsAddedAll(l, done), bubble) == AttachmentsAddedAll(l, done + {bubble})
  {
    var fb := l.focusedBubble.value;
    var m, m' := ConstMap(done, fb), ConstMap(done + {bubble}, fb);
    assert m[bubble := fb] == m' by {
      ConstMapIs(m[bubble := fb], done + {bubble}, fb);
    }
    var u, v := (l.relatedAttachments + m)[bubble := fb], l.relatedAttachments + m';
    assert u == v by {
      assert u.Keys == v.Keys;
      assert forall id :: id in u ==> u[id] == v[id];
    }
    var x := AttachmentsAddedAll(l, done);
    assert AttachmentAdded(x, bubble) == x.(relatedAttachments := u);
  }

  lemma AttachedAllNone(l: Snapshot)
    requires l.focusedBubble.Some?
    ensures AttachmentsAddedAll(l, {}) == l
  {
    ConstMapIs(map[], {}, l.focusedBubble.value);
  }

  lemma GrownStep(l: Snapshot, added: seq<Index>, k: nat)
    requires l.focusedBubble.Some? && k < |added|
    ensures Grown(l, added[..k + 1]) == RelatedAdded(Grown(l, added[..k]), added[k])
  {
    assert added[..k + 1][..k] == added[..k];
  }

  /// Every id of `ids` is a view that has been removed.
  ghost predicate Dead(v: seq<Option<Index>>, ids: set<BubbleId>)
  {
    forall id :: id in ids ==> id < |v| && v[id].None?
  }

  /// The bookkeeping between the steps of `focus` and `reloadData`: the
  /// registry is consistent and registers exactly `shown`; every live view,
  /// and nothing else, has a behaviour; only live views own a tap
  /// recogniser (all of them when `allTaps`); exactly the views of `panned`
  /// own a pan recogniser; the attachments are those of the views of
  /// `tied`, to `anchor`, and of the removed views `stale`; the snap holds
  /// the focus, which is alive.
  ghost predicate Settled(l: Snapshot, shown: set<Index>, panned: set<Index>, tied: set<Index>,
                          anchor: BubbleId, stale: set<BubbleId>, allTaps: bool)
  {
    && RegistryOk(Arena(l)) && l.indexToBubble.Keys == shown
    && panned <= shown && tied <= shown
    && l.bubbleBehaviors == LiveIds(l.views)
    && l.tapRecognizers <= LiveIds(l.views) && (allTaps ==> l.tapRecognizers == LiveIds(l.views))
    && l.panRecognizers == ViewsOf(l.indexToBubble, panned)
    && Dead(l.views, stale)
    && l.relatedAttachments.Keys == ViewsOf(l.indexToBubble, tied) + stale
    && (forall id :: id in l.relatedAttachments && id !in stale ==> l.relatedAttachments[id] == anchor)
    && l.focusedSnap == l.focusedBubble
    && (l.focusedBubble.Some? ==> Alive(l.views, l.focusedBubble.value))
  }

  /// The view between two public calls: a focus that is not related to
  /// itself, or nothing on screen; the related indices shown, panned and
  /// attached to the focus; and `stale` the attachments left behind by
  /// removed bubbles.
  ghost predicate LegacyOk(l: Snapshot, stale: set<BubbleId>, allTaps: bool)
  {
    && (l.focusedBubble.None? ==> l.currentRelated == {})
    && (l.focusedBubble.Some? ==>
          Alive(l.views, l.focusedBubble.value) && l.views[l.focusedBubble.value].value !in l.currentRelated)
    && Settled(l, Displayed(FocusIndexOf(l), l.currentRelated), l.currentRelated, l.currentRelated,
               Anchor(l), stale, allTaps)
  }

  /// The empty view keeps the books, with every tap recogniser in place.
  lemma EmptyOk()
    ensures LegacyOk(Empty, {}, true)
  {
    assert LiveIds([]) == {};
    assert ViewsOf(map[], {}) == {};
  }

  /// `disengageRelated` on the views of shown indices.
  lemma UnpanOk(l: Snapshot, shown: set<Index>, panned: set<Index>, tied: set<Index>, a: BubbleId,
                stale: set<BubbleId>, allTaps: bool, indices: set<Index>)
    requires Settled(l, shown, panned, tied, a, stale, allTaps) && indices <= shown
    ensures Settled(RelatedDisengagedAll(l, ViewsOf(l.indexToBubble, indices)), shown, panned - indices, tied, a, stale, allTaps)
  {
    FocusSteps.ViewsOfMinus(Arena(l), panned, indices);
  }

  /// `removeAttachment` on the views of shown indices.
  lemma DetachOk(l: Snapshot, shown: set<Index>, panned: set<Index>, tied: set<Index>, a: BubbleId,
                 stale: set<BubbleId>, allTaps: bool, indices: set<Index>)
    requires Settled(l, shown, panned, tied, a, stale, allTaps) && indices <= shown
    ensures Settled(AttachmentsRemovedAll(l, ViewsOf(l.indexToBubble, indices)), shown, panned, tied - indices, a, stale, allTaps)
  {
    FocusSteps.ViewsOfMinus(Arena(l), tied, indices);
    ViewsOfAlive(Arena(l), indices);
    assert ViewsOf(l.indexToBubble, indices) !! stale;
  }

  /// `removeBubble` on the views of shown indices that are neither panned
  /// nor attached, and do not hold the focus: their indices are no longer
  /// shown.
  lemma DropOk(l: Snapshot, shown: set<Index>, panned: set<Index>, tied: set<Index>, a: BubbleId,
               stale: set<BubbleId>, allTaps: bool, indices: set<Index>)
    requires Settled(l, shown, panned, tied, a, stale, allTaps)
    requires indices <= shown && indices !! panned && indices !! tied
    requires l.focusedBubble.Some? ==> l.views[l.focusedBubble.value].value !in indices
    ensures Settled(BubblesRemovedAll(l, ViewsOf(l.indexToBubble, indices)), shown - indices, panned, tied, a, stale, allTaps)
  {
    var r, ids := Arena(l), ViewsOf(l.indexToBubble, indices);
    DroppedOk(r, indices);
    ViewsOfAlive(r, indices);
    var d, n := Dropped(r, ids), BubblesRemovedAll(l, ids);
    assert Arena(n) == d;
    FocusSteps.ViewsOfUnchanged(l.indexToBubble, d.indexToBubble, panned);
    FocusSteps.ViewsOfUnchanged(l.indexToBubble, d.indexToBubble, tied);
    assert ids !! stale;
  }

  /// `removeBubble` on one live view that is neither panned nor attached,
  /// and does not hold the focus.
  lemma RetireOk(l: Snapshot, shown: set<Index>, panned: set<Index>, tied: set<Index>, a: BubbleId,
                 stale: set<BubbleId>, allTaps: bool, bubble: BubbleId)
    requires Settled(l, shown, panned, tied, a, stale, allTaps) && Alive(l.views, bubble)
    requires l.views[bubble].value !in panned && l.views[bubble].value !in tied
    requires l.focusedBubble != Some(bubble)
    ensures Settled(BubbleRemoved(l, bubble), shown - {l.views[bubble].value}, panned, tied, a, stale, allTaps)
  {
    var r := Arena(l);
    RemovedOk(r, bubble);
    var d := Removed(r, bubble);
    assert Arena(BubbleRemoved(l, bubble)) == d;
    FocusSteps.ViewsOfUnchanged(l.indexToBubble, d.indexToBubble, panned);
    FocusSteps.ViewsOfUnchanged(l.indexToBubble, d.indexToBubble, tied);
  }

  /// A fresh view for an index not shown, added: its index is shown, on
  /// the new view, and nothing else changes.
  lemma CreatedOk(l: Snapshot, shown: set<Index>, panned: set<Index>, tied: set<Index>, a: BubbleId,
                  stale: set<BubbleId>, allTaps: bool, index: Index)
    requires Settled(l, shown, panned, tied, a, stale, allTaps) && index !in shown
    ensures var c := BubbleCreated(l, index);
            && Settled(c, shown + {index}, panned, tied, a, stale, allTaps)
            && c.indexToBubble[index] == |l.views| && c.views == l.views + [Some(index)]
  {
    var r := Arena(l);
    AddedOk(r, index);
    var g, c := Added(Configured(r, index), |l.views|), BubbleCreated(l, index);
    assert Arena(c) == g;
    FocusSteps.ViewsOfUnchanged(l.indexToBubble, g.indexToBubble, panned);
    FocusSteps.ViewsOfUnchanged(l.indexToBubble, g.indexToBubble, tied);
  }

  /// `configureFocused` on a live view.
  lemma FocusOk(l: Snapshot, shown: set<Index>, panned: set<Index>, tied: set<Index>, a: BubbleId,
                stale: set<BubbleId>, allTaps: bool, bubble: BubbleId)
    requires Settled(l, shown, panned, tied, a, stale, allTaps) && Alive(l.views, bubble)
    ensures Settled(FocusConfigured(l, bubble), shown, panned, tied, a, stale, allTaps)
  {
  }

  /// `disengageFocused`: as written, every view keeps its tap recogniser
  /// only when `keepTap`.
  lemma UnfocusOk(l: Snapshot, shown: set<Index>, panned: set<Index>, tied: set<Index>, a: BubbleId,
                  stale: set<BubbleId>, allTaps: bool, bubble: BubbleId, keepTap: bool)
    requires Settled(l, shown, panned, tied, a, stale, allTaps)
    ensures Settled(FocusDisengaged(l, bubble, keepTap), shown, panned, tied, a, stale, allTaps && keepTap)
  {
  }

  /// A related bubble to be focused loses its pan recogniser and its
  /// attachment.
  lemma PromoteOk(l: Snapshot, shown: set<Index>, panned: set<Index>, tied: set<Index>, a: BubbleId,
                  stale: set<BubbleId>, allTaps: bool, index: Index)
    requires Settled(l, shown, panned, tied, a, stale, allTaps) && index in panned && index in tied
    ensures var fb := l.indexToBubble[index];
            Settled(AttachmentRemoved(RelatedDisengaged(l, fb), fb), shown, panned - {index}, tied - {index}, a, stale, allTaps)
  {
    var fb := l.indexToBubble[index];
    assert ViewsOf(l.indexToBubble, {index}) == {fb};
    UnpanOk(l, shown, panned, tied, a, stale, allTaps, {index});
    DetachOk(RelatedDisengagedAll(l, {fb}), shown, panned - {index}, tied, a, stale, allTaps, {index});
  }

  /// `configureRelated` and `addAttachment` on a live view: its index is
  /// panned and attached to the focus.
  lemma DemoteOk(l: Snapshot, shown: set<Index>, panned: set<Index>, tied: set<Index>, a: BubbleId,
                 stale: set<BubbleId>, allTaps: bool, bubble: BubbleId)
    requires Settled(l, shown, panned, tied, a, stale, allTaps) && Alive(l.views, bubble)
    requires l.focusedBubble == Some(a)
    ensures var i := l.views[bubble].value;
            Settled(AttachmentAdded(RelatedConfigured(l, bubble), bubble), shown, panned + {i}, tied + {i}, a, stale, allTaps)
  {
    var r, i := Arena(l), l.views[bubble].value;
    assert ViewsOf(l.indexToBubble, {i}) == {bubble};
    ViewsOfUnion(r, panned, {i});
    ViewsOfUnion(r, tied, {i});
  }

  /// `addAttachment` on the views of shown indices.
  lemma RetieOk(l: Snapshot, shown: set<Index>, panned: set<Index>, tied: set<Index>, a: BubbleId,
                stale: set<BubbleId>, allTaps: bool, indices: set<Index>)
    requires Settled(l, shown, panned, tied, a, stale, allTaps) && indices <= shown
    requires l.focusedBubble == Some(a)
    ensures Settled(AttachmentsAddedAll(l, ViewsOf(l.indexToBubble, indices)), shown, panned, tied + indices, a, stale, allTaps)
  {
    var r := Arena(l);
    ViewsOfUnion(r, tied, indices);
    ViewsOfAlive(r, indices);
  }

  /// With nothing attached but stale views, the anchor can move.
  lemma Reanchored(l: Snapshot, shown: set<Index>, panned: set<Index>, a: BubbleId, b: BubbleId,
                   stale: set<BubbleId>, allTaps: bool)
    requires Settled(l, shown, panned, {}, a, stale, allTaps)
    ensures Settled(l, shown, panned, {}, b, stale, allTaps)
  {
    assert ViewsOf(l.indexToBubble, {}) == {};
  }

  /// One new related bubble: shown, panned and attached to the focus.
  lemma RelatedAddedOk(l: Snapshot, shown: set<Index>, panned: set<Index>, tied: set<Index>, a: BubbleId,
                       stale: set<BubbleId>, allTaps: bool, index: Index)
    requires Settled(l, shown, panned, tied, a, stale, allTaps) && index !in shown
    requires l.focusedBubble == Some(a)
    ensures var g := RelatedAdded(l, index);
            && Settled(g, shown + {index}, panned + {index}, tied + {index}, a, stale, allTaps)
            && g.views == l.views + [Some(index)]
  {
    CreatedOk(l, shown, panned, tied, a, stale, allTaps, index);
    DemoteOk(BubbleCreated(l, index), shown + {index}, panned, tied, a, stale, allTaps, |l.views|);
  }

  /// A new related bubble for each of the new indices `toAdd`, taken in the
  /// order `added`: all of them shown, panned and attached to the focus.
  lemma {:induction false} GrowOk(l: Snapshot, shown: set<Index>, panned: set<Index>, tied: set<Index>, a: BubbleId,
                                  stale: set<BubbleId>, allTaps: bool, added: seq<Index>, toAdd: set<Index>)
    requires Settled(l, shown, panned, tied, a, stale, allTaps) && l.focusedBubble == Some(a)
    requires NoDup(added) && (forall i :: i in added <==> i in toAdd) && toAdd !! shown
    ensures Settled(Grown(l, added), shown + toAdd, panned + toAdd, tied + toAdd, a, stale, allTaps)
    decreases |added|
  {
    if added == [] {
      assert toAdd == {};
    } else {
      var front, last := added[..|added| - 1], added[|added| - 1];
      var rest := toAdd - {last};
      SplitLast(added, toAdd);
      GrowOk(l, shown, panned, tied, a, stale, allTaps, front, rest);
      var p := Grown(l, front);
      assert Grown(l, added) == RelatedAdded(p, last);
      RelatedAddedOk(p, shown + rest, panned + rest, tied + rest, a, stale, allTaps, last);
      UnionLast(shown, rest, toAdd, last);
      UnionLast(panned, rest, toAdd, last);
      UnionLast(tied, rest, toAdd, last);
    }
  }

  /// The indices before the last one of `added`, as a sequence and as a set.
  lemma SplitLast(added: seq<Index>, toAdd: set<Index>)
    requires NoDup(added) && (forall i :: i in added <==> i in toAdd) && added != []
    ensures var front, last := added[..|added| - 1], added[|added| - 1];
            && NoDup(front) && last in toAdd && (forall i :: i in front <==> i in toAdd - {last})
  {
    var n := |added| - 1;
    forall k | 0 <= k < n ensures added[..n][k] != added[n] {
    }
  }

  lemma UnionLast(s: set<Index>, rest: set<Index>, toAdd: set<Index>, last: Index)
    requires rest == toAdd - {last} && last in toAdd
    ensures s + rest + {last} == s + toAdd
  {
  }

  /// `Grown` appends one view per index and leaves the views before them
  /// untouched.
  lemma {:induction false} GrownViews(l: Snapshot, added: seq<Index>)
    requires l.focusedBubble.Some?
    ensures var g := Grown(l, added);
            && |g.views| == |l.views| + |added|
            && (forall id :: 0 <= id < |l.views| ==> g.views[id] == l.views[id])
            && (forall id :: 0 <= id < |l.views| ==> (id in g.tapRecognizers <==> id in l.tapRecognizers))
    decreases |added|
  {
    if added != [] {
      GrownViews(l, added[..|added| - 1]);
    }
  }

  /// Under a consistent registry, the views of distinct indices are
  /// distinct: as many views as indices.
  lemma ViewsOfCount(r: RegistryState, indices: set<Index>)
    requires RegistryOk(r) && indices <= r.indexToBubble.Keys
    ensures |ViewsOf(r.indexToBubble, indices)| == |indices|
  {
    var m := map i | i in indices :: r.indexToBubble[i];
    assert Injective(m) by {
      forall x, y | x in m && y in m && m[x] == m[y] ensures x == y {
        assert r.views[m[x]] == Some(x) && r.views[m[y]] == Some(y);
      }
    }
    InjectiveValuesCount(m);
    assert m.Keys == indices;
    assert m.Values == ViewsOf(r.indexToBubble, indices) by {
      forall id | id in ViewsOf(r.indexToBubble, indices) ensures id in m.Values {
        var i :| i in indices && r.indexToBubble[i] == id;
        assert m[i] == id;
      }
    }
  }

  /// The assertion that closes `focus`: as many attachments as related
  /// indices, exactly when no attachment is left over from a removed
  /// bubble.
  lemma AttachmentCount(l: Snapshot, stale: set<BubbleId>, allTaps: bool)
    requires LegacyOk(l, stale, allTaps)
    ensures |l.relatedAttachments| == |l.currentRelated| + |stale|
    ensures |l.relatedAttachments| == |l.currentRelated| <==> stale == {}
  {
    var r := Arena(l);
    ViewsOfCount(r, l.currentRelated);
    ViewsOfAlive(r, l.currentRelated);
    var tiedViews := ViewsOf(l.indexToBubble, l.currentRelated);
    assert tiedViews !! stale;
    assert l.relatedAttachments.Keys == tiedViews + stale;
    assert |l.relatedAttachments| == |l.relatedAttachments.Keys|;
  }

  /// `focus` moves from `l` to an index that is not focused and is not
  /// related to itself, with the registry consistent.
  ghost predicate Refocusable(l: Snapshot, newRelated: set<Index>, focusIndex: Index)
  {
    && RegistryOk(Arena(l)) && l.currentRelated <= l.indexToBubble.Keys
    && (l.focusedBubble.Some? ==>
          Alive(l.views, l.focusedBubble.value) && l.views[l.focusedBubble.value].value !in l.currentRelated)
    && FocusIndexOf(l) != Some(focusIndex) && focusIndex !in newRelated
  }

  /// The views `focus` removes and keeps.
  function RemoveViews(l: Snapshot, newRelated: set<Index>, focusIndex: Index): set<BubbleId>
    requires ToRemove(newRelated, l.currentRelated, focusIndex) <= l.indexToBubble.Keys
  {
    ViewsOf(l.indexToBubble, ToRemove(newRelated, l.currentRelated, focusIndex))
  }

  function KeepViews(l: Snapshot, newRelated: set<Index>): set<BubbleId>
    requires ToKeep(newRelated, l.currentRelated) <= l.indexToBubble.Keys
  {
    ViewsOf(l.indexToBubble, ToKeep(newRelated, l.currentRelated))
  }

  /// The views to remove lose their pan recognisers, their attachments and
  /// then their place.
  ghost function Cleared(l: Snapshot, removeViews: set<BubbleId>): Snapshot
  {
    BubblesRemovedAll(AttachmentsRemovedAll(RelatedDisengagedAll(l, removeViews), removeViews), removeViews)
  }

  /// The first steps of `focus`: the views to remove go, the keepers are
  /// detached, and the old focus is disengaged.
  ghost function Released(l: Snapshot, removeViews: set<BubbleId>, keepViews: set<BubbleId>, keepTap: bool): Snapshot
  {
    var l4 := AttachmentsRemovedAll(Cleared(l, removeViews), keepViews);
    match l.focusedBubble
    case Some(f) => FocusDisengaged(l4, f, keepTap)
    case None => l4
  }

  /// The new focus: a related index keeps its view, which loses its pan
  /// recogniser and its attachment; any other index gets a fresh view.
  /// Either way the view is then snapped.
  function Engaged(l: Snapshot, focusIndex: Index): Snapshot
    requires focusIndex in l.currentRelated ==> focusIndex in l.indexToBubble
  {
    if focusIndex in l.currentRelated then
      var fb := l.indexToBubble[focusIndex];
      FocusConfigured(AttachmentRemoved(RelatedDisengaged(l, fb), fb), fb)
    else FocusConfigured(BubbleCreated(l, focusIndex), |l.views|)
  }

  /// The old focus, if any: panned and attached to the new focus when it is
  /// related to it, removed otherwise.
  function Placed(l: Snapshot, oldFocused: Option<BubbleId>, newRelated: set<Index>): Snapshot
    requires l.focusedBubble.Some?
    requires oldFocused.Some? ==> Alive(l.views, oldFocused.value)
  {
    match oldFocused
    case None => l
    case Some(f) =>
      if l.views[f].value in newRelated then AttachmentAdded(RelatedConfigured(l, f), f)
      else BubbleRemoved(l, f)
  }

  /// The last steps of `focus`: the keepers are attached to the new focus,
  /// and a new related bubble is made for each index of `added`.
  ghost function Joined(l: Snapshot, keepViews: set<BubbleId>, added: seq<Index>): Snapshot
    requires l.focusedBubble.Some?
  {
    Grown(AttachmentsAddedAll(l, keepViews), added)
  }

  /// What the first steps of `focus` leave: the removed indices are
  /// forgotten, nothing is focused, a related new focus still has its live
  /// view, and the old focus its index.
  lemma DisengagedFacts(l: Snapshot, newRelated: set<Index>, focusIndex: Index, keepTap: bool)
    requires Refocusable(l, newRelated, focusIndex)
    ensures ToRemove(newRelated, l.currentRelated, focusIndex) <= l.indexToBubble.Keys
    ensures ToKeep(newRelated, l.currentRelated) <= l.indexToBubble.Keys
    ensures var l5 := Released(l, RemoveViews(l, newRelated, focusIndex), KeepViews(l, newRelated), keepTap);
            && l5.indexToBubble == l.indexToBubble - ToRemove(newRelated, l.currentRelated, focusIndex)
            && l5.currentRelated == l.currentRelated && l5.focusedBubble == None
            && (focusIndex in l.currentRelated ==> focusIndex in l5.indexToBubble)
            && |l5.views| == |l.views|
            && (l.focusedBubble.Some? ==>
                  l5.views[l.focusedBubble.value] == l.views[l.focusedBubble.value])
  {
    var toRemove := ToRemove(newRelated, l.currentRelated, focusIndex);
    DroppedOk(Arena(l), toRemove);
    if l.focusedBubble.Some? {
      FocusSteps.NotAmongViews(Arena(l), toRemove, l.focusedBubble.value);
    }
  }

  /// The new focus keeps the views before it, and is focused on a view of
  /// its index.
  lemma EngagedKeeps(l: Snapshot, focusIndex: Index)
    requires focusIndex in l.currentRelated ==> focusIndex in l.indexToBubble
    ensures var e := Engaged(l, focusIndex);
            && e.focusedBubble.Some? && |e.views| >= |l.views|
            && (forall id :: 0 <= id < |l.views| ==> e.views[id] == l.views[id])
  {
  }

  /// `focus` moves from a consistent view to an index that is not focused
  /// and not related to itself.
  ghost predicate CanRefocus(l: Snapshot, stale: set<BubbleId>, allTaps: bool, newRelated: set<Index>, focusIndex: Index)
  {
    LegacyOk(l, stale, allTaps) && FocusIndexOf(l) != Some(focusIndex) && focusIndex !in newRelated
  }

  /// The half of `focus` up to the old focus.
  ghost function Switched(l: Snapshot, newRelated: set<Index>, focusIndex: Index, keepTap: bool): (s: Snapshot)
    requires Refocusable(l, newRelated, focusIndex)
    ensures s.focusedBubble.Some?
  {
    DisengagedFacts(l, newRelated, focusIndex, keepTap);
    var l5 := Released(l, RemoveViews(l, newRelated, focusIndex), KeepViews(l, newRelated), keepTap);
    EngagedKeeps(l5, focusIndex);
    Placed(Engaged(l5, focusIndex), l.focusedBubble, newRelated)
  }

  /// `focus(index:)` past its guard, as a transformation of the view, with
  /// the indices to create made in the order `added`. `keepTap` is the
  /// corrected `disengageFocused`.
  ghost function Refocused(l: Snapshot, newRelated: set<Index>, focusIndex: Index, added: seq<Index>, keepTap: bool): Snapshot
    requires Refocusable(l, newRelated, focusIndex)
  {
    DisengagedFacts(l, newRelated, focusIndex, keepTap);
    Joined(Switched(l, newRelated, focusIndex, keepTap), KeepViews(l, newRelated), added).(currentRelated := newRelated)
  }

  /// The removed views are neither shown, panned nor attached any more.
  lemma ClearedOk(l: Snapshot, stale: set<BubbleId>, allTaps: bool, newRelated: set<Index>, focusIndex: Index)
    requires CanRefocus(l, stale, allTaps, newRelated, focusIndex)
    ensures Refocusable(l, newRelated, focusIndex)
    ensures ToRemove(newRelated, l.currentRelated, focusIndex) <= l.indexToBubble.Keys
    ensures var R := l.currentRelated;
            var toRemove := ToRemove(newRelated, R, focusIndex);
            Settled(Cleared(l, RemoveViews(l, newRelated, focusIndex)), Displayed(FocusIndexOf(l), R) - toRemove,
                    R - toRemove, R - toRemove, Anchor(l), stale, allTaps)
  {
    var R, a := l.currentRelated, Anchor(l);
    var shown, toRemove := Displayed(FocusIndexOf(l), R), ToRemove(newRelated, R, focusIndex);
    var rv := RemoveViews(l, newRelated, focusIndex);
    UnpanOk(l, shown, R, R, a, stale, allTaps, toRemove);
    var l1 := RelatedDisengagedAll(l, rv);
    DetachOk(l1, shown, R - toRemove, R, a, stale, allTaps, toRemove);
    DropOk(AttachmentsRemovedAll(l1, rv), shown, R - toRemove, R - toRemove, a, stale, allTaps, toRemove);
  }

  /// The first steps of `focus` keep the books: the removed indices are
  /// gone, the keepers detached, and nothing is focused.
  lemma ReleasedOk(l: Snapshot, stale: set<BubbleId>, allTaps: bool, newRelated: set<Index>, focusIndex: Index, keepTap: bool)
    requires CanRefocus(l, stale, allTaps, newRelated, focusIndex)
    ensures Refocusable(l, newRelated, focusIndex)
    ensures ToRemove(newRelated, l.currentRelated, focusIndex) <= l.indexToBubble.Keys
    ensures ToKeep(newRelated, l.currentRelated) <= l.indexToBubble.Keys
    ensures var R := l.currentRelated;
            var toRemove := ToRemove(newRelated, R, focusIndex);
            Settled(Released(l, RemoveViews(l, newRelated, focusIndex), KeepViews(l, newRelated), keepTap),
                    Displayed(FocusIndexOf(l), R) - toRemove, R - toRemove, R - toRemove - ToKeep(newRelated, R),
                    Anchor(l), stale, allTaps && keepTap)
  {
    var R, a := l.currentRelated, Anchor(l);
    var shown, toRemove, toKeep := Displayed(FocusIndexOf(l), R), ToRemove(newRelated, R, focusIndex), ToKeep(newRelated, R);
    ClearedOk(l, stale, allTaps, newRelated, focusIndex);
    DisengagedFacts(l, newRelated, focusIndex, keepTap);
    var l3 := Cleared(l, RemoveViews(l, newRelated, focusIndex));
    FocusSteps.ViewsOfUnchanged(l.indexToBubble, l3.indexToBubble, toKeep);
    DetachOk(l3, shown - toRemove, R - toRemove, R - toRemove, a, stale, allTaps, toKeep);
    var l4 := AttachmentsRemovedAll(l3, KeepViews(l, newRelated));
    if l.focusedBubble.Some? {
      UnfocusOk(l4, shown - toRemove, R - toRemove, R - toRemove - toKeep, a, stale, allTaps, l.focusedBubble.value, keepTap);
    }
  }

  /// The new focus keeps the books: a promoted index is neither panned nor
  /// attached any more, a created one is shown; either way it is focused on
  /// a live view showing it.
  lemma EngagedOk(l: Snapshot, focusIndex: Index, shown: set<Index>, panned: set<Index>, tied: set<Index>, a: BubbleId,
                  stale: set<BubbleId>, allTaps: bool)
    requires Settled(l, shown, panned, tied, a, stale, allTaps)
    requires focusIndex in l.currentRelated ==> focusIndex in panned && focusIndex in tied
    requires focusIndex !in l.currentRelated ==> focusIndex !in shown
    ensures focusIndex in l.currentRelated ==> focusIndex in l.indexToBubble
    ensures var e := Engaged(l, focusIndex);
            && e.focusedBubble.Some? && Alive(e.views, e.focusedBubble.value)
            && e.views[e.focusedBubble.value] == Some(focusIndex)
            && Settled(e, if focusIndex in l.currentRelated then shown else shown + {focusIndex},
                       panned - {focusIndex}, tied - {focusIndex}, a, stale, allTaps)
            && e.indexToBubble == if focusIndex in l.currentRelated then l.indexToBubble
                                  else l.indexToBubble[focusIndex := |l.views|]
  {
    if focusIndex in l.currentRelated {
      var fb := l.indexToBubble[focusIndex];
      PromoteOk(l, shown, panned, tied, a, stale, allTaps, focusIndex);
      FocusOk(AttachmentRemoved(RelatedDisengaged(l, fb), fb), shown, panned - {focusIndex}, tied - {focusIndex}, a, stale, allTaps, fb);
    } else {
      CreatedOk(l, shown, panned, tied, a, stale, allTaps, focusIndex);
      assert panned - {focusIndex} == panned && tied - {focusIndex} == tied;
      FocusOk(BubbleCreated(l, focusIndex), shown + {focusIndex}, panned, tied, a, stale, allTaps, |l.views|);
    }
  }

  /// The new focus engaged on a view with nothing focused and nothing of
  /// the old focus attached: it is focused on a live view showing it, and
  /// the anchor moves to that view.
  lemma EngagedAnchoredOk(l: Snapshot, focusIndex: Index, shown: set<Index>, panned: set<Index>, tied: set<Index>, a: BubbleId,
                          stale: set<BubbleId>, allTaps: bool)
    requires Settled(l, shown, panned, tied, a, stale, allTaps)
    requires focusIndex in l.currentRelated ==> focusIndex in panned && focusIndex in tied && tied - {focusIndex} == {}
    requires focusIndex !in l.currentRelated ==> focusIndex !in shown && tied == {}
    ensures focusIndex in l.currentRelated ==> focusIndex in l.indexToBubble
    ensures var e := Engaged(l, focusIndex);
            && e.focusedBubble.Some? && Alive(e.views, e.focusedBubble.value)
            && e.views[e.focusedBubble.value] == Some(focusIndex)
            && Settled(e, if focusIndex in l.currentRelated then shown else shown + {focusIndex},
                       panned - {focusIndex}, {}, e.focusedBubble.value, stale, allTaps)
  {
    EngagedOk(l, focusIndex, shown, panned, tied, a, stale, allTaps);
    var e := Engaged(l, focusIndex);
    Reanchored(e, if focusIndex in l.currentRelated then shown else shown + {focusIndex}, panned - {focusIndex},
               a, e.focusedBubble.value, stale, allTaps);
  }

  /// The index an optional view shows.
  function IndexOfView(v: seq<Option<Index>>, bubble: Option<BubbleId>): Option<Index>
    requires bubble.Some? ==> Alive(v, bubble.value)
  {
    match bubble
    case Some(f) => v[f]
    case None => None
  }

  /// The old focus placed on a view focused elsewhere: related to the new
  /// focus it is panned and attached, otherwise removed.
  lemma PlacedOk(l: Snapshot, shown: set<Index>, panned: set<Index>, fb: BubbleId, stale: set<BubbleId>, allTaps: bool,
                 oldFocused: Option<BubbleId>, newRelated: set<Index>)
    requires Settled(l, shown, panned, {}, fb, stale, allTaps) && l.focusedBubble == Some(fb)
    requires oldFocused.Some? ==>
               && Alive(l.views, oldFocused.value) && oldFocused != l.focusedBubble
               && l.views[oldFocused.value].value !in panned
    ensures var fo := IndexOfView(l.views, oldFocused);
            var p := Placed(l, oldFocused, newRelated);
            && p.focusedBubble == l.focusedBubble && p.views[fb] == l.views[fb]
            && Settled(p, shown - Retired(newRelated, fo), panned + Demoted(newRelated, fo), Demoted(newRelated, fo),
                       fb, stale, allTaps)
            && (forall k :: k in p.indexToBubble ==> k in l.indexToBubble && p.indexToBubble[k] == l.indexToBubble[k])
  {
    var fo := IndexOfView(l.views, oldFocused);
    match oldFocused {
      case None =>
        assert panned + {} == panned && shown - {} == shown;
      case Some(f) =>
        if l.views[f].value in newRelated {
          DemoteOk(l, shown, panned, {}, fb, stale, allTaps, f);
          assert shown - Retired(newRelated, fo) == shown;
        } else {
          RetireOk(l, shown, panned, {}, fb, stale, allTaps, f);
          assert panned + Demoted(newRelated, fo) == panned;
        }
    }
  }

  /// The new focus engaged after the first steps of `focus`: it is focused
  /// on a live view showing it, nothing is attached to it yet, and the old
  /// focus keeps its view.
  lemma SwitchedOnOk(l: Snapshot, stale: set<BubbleId>, allTaps: bool, newRelated: set<Index>, focusIndex: Index, keepTap: bool)
    requires CanRefocus(l, stale, allTaps, newRelated, focusIndex)
    ensures Refocusable(l, newRelated, focusIndex)
    ensures ToRemove(newRelated, l.currentRelated, focusIndex) <= l.indexToBubble.Keys
    ensures ToKeep(newRelated, l.currentRelated) <= l.indexToBubble.Keys
    ensures var R := l.currentRelated;
            var toRemove := ToRemove(newRelated, R, focusIndex);
            var shown1 := Displayed(FocusIndexOf(l), R) - toRemove;
            var l5 := Released(l, RemoveViews(l, newRelated, focusIndex), KeepViews(l, newRelated), keepTap);
            && (focusIndex in l5.currentRelated ==> focusIndex in l5.indexToBubble)
            && var e := Engaged(l5, focusIndex);
               && e.focusedBubble.Some? && Alive(e.views, e.focusedBubble.value)
               && e.views[e.focusedBubble.value] == Some(focusIndex)
               && Settled(e, if focusIndex in R then shown1 else shown1 + {focusIndex}, R - toRemove - {focusIndex}, {},
                          e.focusedBubble.value, stale, allTaps && keepTap)
  {
    var R, fi := l.currentRelated, FocusIndexOf(l);
    var toRemove, toKeep := ToRemove(newRelated, R, focusIndex), ToKeep(newRelated, R);
    ReleasedOk(l, stale, allTaps, newRelated, focusIndex, keepTap);
    DisengagedFacts(l, newRelated, focusIndex, keepTap);
    FocusSets.SwitchTrajectory(newRelated, R, fi, focusIndex);
    var l5 := Released(l, RemoveViews(l, newRelated, focusIndex), KeepViews(l, newRelated), keepTap);
    EngagedAnchoredOk(l5, focusIndex, Displayed(fi, R) - toRemove, R - toRemove, R - toRemove - toKeep,
                      Anchor(l), stale, allTaps && keepTap);
  }

  /// The old focus placed after the new one is engaged: the view shows the
  /// new focus, the keepers and the demoted old focus, and only the keepers
  /// are still detached.
  lemma SwitchedOk(l: Snapshot, stale: set<BubbleId>, allTaps: bool, newRelated: set<Index>, focusIndex: Index, keepTap: bool)
    requires CanRefocus(l, stale, allTaps, newRelated, focusIndex)
    ensures Refocusable(l, newRelated, focusIndex)
    ensures var R, fi := l.currentRelated, FocusIndexOf(l);
            var demoted := Demoted(newRelated, fi);
            var s := Switched(l, newRelated, focusIndex, keepTap);
            && Alive(s.views, s.focusedBubble.value) && s.views[s.focusedBubble.value] == Some(focusIndex)
            && Settled(s, Displayed(Some(focusIndex), newRelated) - ToAdd(newRelated, R, fi),
                       ToKeep(newRelated, R) + demoted, demoted, s.focusedBubble.value, stale, allTaps && keepTap)
  {
    var R, fi := l.currentRelated, FocusIndexOf(l);
    var toRemove, keep := ToRemove(newRelated, R, focusIndex), ToKeep(newRelated, R);
    var shown1 := Displayed(fi, R) - toRemove;
    SwitchedOnOk(l, stale, allTaps, newRelated, focusIndex, keepTap);
    DisengagedFacts(l, newRelated, focusIndex, keepTap);
    var l5 := Released(l, RemoveViews(l, newRelated, focusIndex), KeepViews(l, newRelated), keepTap);
    EngagedKeeps(l5, focusIndex);
    var e := Engaged(l5, focusIndex);
    var fb := e.focusedBubble.value;
    KeptAfterRemoval(newRelated, R, focusIndex);
    if l.focusedBubble.Some? {
      var f := l.focusedBubble.value;
      assert e.views[f] == l.views[f];
      assert e.focusedBubble != l.focusedBubble by {
        if focusIndex !in R {
          assert fb == |l5.views|;
        }
      }
    }
    PlacedOk(e, if focusIndex in R then shown1 else shown1 + {focusIndex}, keep, fb, stale, allTaps && keepTap,
             l.focusedBubble, newRelated);
    assert IndexOfView(e.views, l.focusedBubble) == fi;
    FocusSets.SwitchTrajectory(newRelated, R, fi, focusIndex);
    assert Placed(e, l.focusedBubble, newRelated) == Switched(l, newRelated, focusIndex, keepTap);
  }

  /// What stays of the related indices once the removed ones and the new
  /// focus are gone: the keepers.
  lemma KeptAfterRemoval(newRelated: set<Index>, currentRelated: set<Index>, focusIndex: Index)
    requires focusIndex !in newRelated
    ensures currentRelated - ToRemove(newRelated, currentRelated, focusIndex) - {focusIndex} == ToKeep(newRelated, currentRelated)
  {
  }

  /// The keepers keep their views through the first half of `focus`.
  lemma KeepersKept(l: Snapshot, stale: set<BubbleId>, allTaps: bool, newRelated: set<Index>, focusIndex: Index, keepTap: bool)
    requires CanRefocus(l, stale, allTaps, newRelated, focusIndex)
    ensures Refocusable(l, newRelated, focusIndex)
    ensures var s := Switched(l, newRelated, focusIndex, keepTap);
            && ToKeep(newRelated, l.currentRelated) <= s.indexToBubble.Keys
            && ViewsOf(s.indexToBubble, ToKeep(newRelated, l.currentRelated)) == KeepViews(l, newRelated)
  {
    var R, keep := l.currentRelated, ToKeep(newRelated, l.currentRelated);
    DisengagedFacts(l, newRelated, focusIndex, keepTap);
    var l5 := Released(l, RemoveViews(l, newRelated, focusIndex), KeepViews(l, newRelated), keepTap);
    EngagedKeeps(l5, focusIndex);
    var e := Engaged(l5, focusIndex);
    var s := Placed(e, l.focusedBubble, newRelated);
    assert s == Switched(l, newRelated, focusIndex, keepTap);
    forall k | k in keep ensures k in s.indexToBubble && s.indexToBubble[k] == l.indexToBubble[k] {
      assert k in l5.indexToBubble && k in e.indexToBubble && e.indexToBubble[k] == l.indexToBubble[k];
      if l.focusedBubble.Some? {
        assert k != l.views[l.focusedBubble.value].value;
      }
    }
    FocusSteps.ViewsOfUnchanged(l.indexToBubble, s.indexToBubble, keep);
  }

  /// The indices to create, in the order `focus` creates them.
  ghost predicate Enumerates(added: seq<Index>, toAdd: set<Index>)
  {
    NoDup(added) && forall i :: i in added <==> i in toAdd
  }

  /// The second half of `focus`: the keepers are attached to the new focus
  /// and a related bubble is created for each new index, so the view shows,
  /// pans and attaches exactly the new related set.
  lemma JoinedOk(l: Snapshot, stale: set<BubbleId>, allTaps: bool, newRelated: set<Index>, focusIndex: Index,
                 added: seq<Index>, keepTap: bool)
    requires CanRefocus(l, stale, allTaps, newRelated, focusIndex)
    requires Enumerates(added, ToAdd(newRelated, l.currentRelated, FocusIndexOf(l)))
    ensures Refocusable(l, newRelated, focusIndex)
    ensures var s := Switched(l, newRelated, focusIndex, keepTap);
            var j := Joined(s, KeepViews(l, newRelated), added);
            && j.focusedBubble == s.focusedBubble && Alive(j.views, j.focusedBubble.value)
            && j.views[j.focusedBubble.value] == Some(focusIndex)
            && Settled(j, Displayed(Some(focusIndex), newRelated), newRelated, newRelated,
                       j.focusedBubble.value, stale, allTaps && keepTap)
  {
    var R, fi := l.currentRelated, FocusIndexOf(l);
    var keep, demoted, add := ToKeep(newRelated, R), Demoted(newRelated, fi), ToAdd(newRelated, R, fi);
    var shown := Displayed(Some(focusIndex), newRelated) - add;
    var at := allTaps && keepTap;
    SwitchedOk(l, stale, allTaps, newRelated, focusIndex, keepTap);
    KeepersKept(l, stale, allTaps, newRelated, focusIndex, keepTap);
    FocusSets.BuildTrajectory(newRelated, R, fi, focusIndex);
    var s := Switched(l, newRelated, focusIndex, keepTap);
    var fb := s.focusedBubble.value;
    RetieOk(s, shown, keep + demoted, demoted, fb, stale, at, keep);
    var t := AttachmentsAddedAll(s, KeepViews(l, newRelated));
    GrowOk(t, shown, keep + demoted, demoted + keep, fb, stale, at, added, add);
    GrownViews(t, added);
    JoinedSets(newRelated, keep, demoted, add);
  }

  lemma JoinedSets(newRelated: set<Index>, keep: set<Index>, demoted: set<Index>, add: set<Index>)
    requires demoted + keep + add == newRelated
    ensures keep + demoted + add == newRelated
  {
  }

  /// `focus(index:)` past its guard keeps the books: it focuses the index,
  /// shows, pans and attaches exactly its related set, leaves the stale
  /// attachments as they were, and keeps every tap recogniser when
  /// `disengageFocused` keeps the focus's one.
  lemma RefocusedOk(l: Snapshot, stale: set<BubbleId>, allTaps: bool, newRelated: set<Index>, focusIndex: Index,
                    added: seq<Index>, keepTap: bool)
    requires CanRefocus(l, stale, allTaps, newRelated, focusIndex)
    requires Enumerates(added, ToAdd(newRelated, l.currentRelated, FocusIndexOf(l)))
    ensures Refocusable(l, newRelated, focusIndex)
    ensures var r := Refocused(l, newRelated, focusIndex, added, keepTap);
            && LegacyOk(r, stale, allTaps && keepTap)
            && FocusIndexOf(r) == Some(focusIndex) && r.currentRelated == newRelated
  {
    JoinedOk(l, stale, allTaps, newRelated, focusIndex, added, keepTap);
    DisengagedFacts(l, newRelated, focusIndex, keepTap);
    var j := Joined(Switched(l, newRelated, focusIndex, keepTap), KeepViews(l, newRelated), added);
    assert Refocused(l, newRelated, focusIndex, added, keepTap) == j.(currentRelated := newRelated);
  }

  /// `removeBubble` on the views of shown indices that are still attached:
  /// their indices are no longer shown and their attachments become stale.
  lemma StrandOk(l: Snapshot, shown: set<Index>, panned: set<Index>, tied: set<Index>, a: BubbleId,
                 stale: set<BubbleId>, allTaps: bool, indices: set<Index>)
    requires Settled(l, shown, panned, tied, a, stale, allTaps)
    requires indices <= tied && indices !! panned
    requires l.focusedBubble.Some? ==> l.views[l.focusedBubble.value].value !in indices
    ensures Settled(BubblesRemovedAll(l, ViewsOf(l.indexToBubble, indices)), shown - indices, panned, tied - indices, a,
                    stale + ViewsOf(l.indexToBubble, indices), allTaps)
  {
    var r, ids := Arena(l), ViewsOf(l.indexToBubble, indices);
    DroppedOk(r, indices);
    ViewsOfAlive(r, indices);
    var d, n := Dropped(r, ids), BubblesRemovedAll(l, ids);
    assert Arena(n) == d;
    FocusSteps.ViewsOfMinus(r, tied, indices);
    FocusSteps.ViewsOfUnchanged(l.indexToBubble, d.indexToBubble, panned);
    FocusSteps.ViewsOfUnchanged(l.indexToBubble, d.indexToBubble, tied - indices);
    assert ids !! stale;
  }

  /// `reloadData` starts from a view whose registry is consistent and
  /// whose focus, if any, is alive and not related to itself.
  ghost predicate Reloadable(l: Snapshot)
  {
    && RegistryOk(Arena(l)) && l.currentRelated <= l.indexToBubble.Keys
    && (l.focusedBubble.Some? ==>
          Alive(l.views, l.focusedBubble.value) && l.views[l.focusedBubble.value].value !in l.currentRelated)
  }

  /// The old focus, if any, is disengaged and removed.
  function FocusDropped(l: Snapshot): (d: Snapshot)
    requires l.focusedBubble.Some? ==> Alive(l.views, l.focusedBubble.value)
  {
    match l.focusedBubble
    case None => l
    case Some(f) => BubbleRemoved(FocusDisengaged(l, f, false), f)
  }

  /// `currentRelated.map{indexToBubble[$0]}`, force-unwrapped.
  function RelatedViews(l: Snapshot): set<BubbleId>
    requires l.currentRelated <= l.indexToBubble.Keys
  {
    ViewsOf(l.indexToBubble, l.currentRelated)
  }

  /// Every related view loses its pan recogniser and is removed. As
  /// written its attachment is left in place; `detach` removes it first.
  ghost function RelatedDropped(l: Snapshot, detach: bool): Snapshot
    requires l.currentRelated <= l.indexToBubble.Keys
  {
    var rv := RelatedViews(l);
    var l1 := RelatedDisengagedAll(l, rv);
    BubblesRemovedAll(if detach then AttachmentsRemovedAll(l1, rv) else l1, rv)
  }

  /// `reloadData()` with a data source `ds`, past its guard, with the
  /// related bubbles made in the order `added`. `detach` tells the
  /// corrected method from the one as written.
  ghost function Reloaded(l: Snapshot, ds: DataSource, added: seq<Index>, detach: bool): Snapshot
    requires Reloadable(l)
  {
    var l1 := FocusDropped(l);
    assert l1.currentRelated <= l1.indexToBubble.Keys;
    var l2 := RelatedDropped(l1, detach);
    var l3 := FocusConfigured(BubbleCreated(l2, ds.focusedBubble), |l2.views|);
    Grown(l3.(currentRelated := ds.relatedForBubble(ds.focusedBubble)), added)
  }

  /// The removals of `reloadData` empty the screen. As written, the
  /// attachments of the removed related views stay behind.
  lemma ReloadClearedOk(l: Snapshot, stale: set<BubbleId>, allTaps: bool, detach: bool)
    requires LegacyOk(l, stale, allTaps)
    ensures Reloadable(l)
    ensures FocusDropped(l).currentRelated <= FocusDropped(l).indexToBubble.Keys
    ensures RelatedViews(FocusDropped(l)) == RelatedViews(l)
    ensures var l2 := RelatedDropped(FocusDropped(l), detach);
            && l2.focusedBubble == None
            && Settled(l2, {}, {}, {}, Anchor(l), if detach then stale else stale + RelatedViews(l), allTaps)
  {
    var R, a := l.currentRelated, Anchor(l);
    var l1 := FocusDropped(l);
    if l.focusedBubble.Some? {
      var f := l.focusedBubble.value;
      assert l1 == BubbleRemoved(FocusDisengaged(l, f, true), f);
      UnfocusOk(l, Displayed(FocusIndexOf(l), R), R, R, a, stale, allTaps, f, true);
      RetireOk(FocusDisengaged(l, f, true), Displayed(FocusIndexOf(l), R), R, R, a, stale, allTaps, f);
      assert Displayed(FocusIndexOf(l), R) - {l.views[f].value} == R;
    }
    assert Settled(l1, R, R, R, a, stale, allTaps);
    FocusSteps.ViewsOfUnchanged(l.indexToBubble, l1.indexToBubble, R);
    var rv := RelatedViews(l1);
    UnpanOk(l1, R, R, R, a, stale, allTaps, R);
    assert R - R == {};
    var p := RelatedDisengagedAll(l1, rv);
    if detach {
      DetachOk(p, R, {}, R, a, stale, allTaps, R);
      DropOk(AttachmentsRemovedAll(p, rv), R, {}, {}, a, stale, allTaps, R);
    } else {
      StrandOk(p, R, {}, R, a, stale, allTaps, R);
    }
  }

  /// A fresh focus for `index` on an empty screen, with `related` as the
  /// related set still to be made.
  lemma RefilledOk(l: Snapshot, a: BubbleId, stale: set<BubbleId>, allTaps: bool, index: Index, related: set<Index>)
    requires Settled(l, {}, {}, {}, a, stale, allTaps) && l.focusedBubble == None
    ensures var l3 := FocusConfigured(BubbleCreated(l, index), |l.views|).(currentRelated := related);
            && Settled(l3, {index}, {}, {}, |l.views|, stale, allTaps)
            && l3.focusedBubble == Some(|l.views|) && l3.views == l.views + [Some(index)]
  {
    var n := |l.views|;
    Reanchored(l, {}, {}, a, n, stale, allTaps);
    CreatedOk(l, {}, {}, {}, n, stale, allTaps, index);
    FocusOk(BubbleCreated(l, index), {} + {index}, {}, {}, n, stale, allTaps, n);
  }

  /// A settled view focused on a live view of `index`, showing, panning
  /// and attaching exactly `related`, is consistent.
  lemma FocusedOk(l: Snapshot, index: Index, fb: BubbleId, shown: set<Index>, panned: set<Index>, tied: set<Index>,
                  stale: set<BubbleId>, allTaps: bool)
    requires l.focusedBubble == Some(fb) && Alive(l.views, fb) && l.views[fb] == Some(index)
    requires index !in l.currentRelated
    requires Settled(l, shown, panned, tied, fb, stale, allTaps)
    requires shown == {index} + l.currentRelated && panned == l.currentRelated && tied == l.currentRelated
    ensures LegacyOk(l, stale, allTaps) && FocusIndexOf(l) == Some(index)
  {
  }

  /// The rebuild of `reloadData` on an empty screen: a fresh focus on the
  /// data source's focus, and a fresh related bubble per related index.
  lemma ReloadRebuiltOk(l: Snapshot, a: BubbleId, stale: set<BubbleId>, allTaps: bool, ds: DataSource, added: seq<Index>)
    requires Settled(l, {}, {}, {}, a, stale, allTaps) && l.focusedBubble == None
    requires ds.focusedBubble !in ds.relatedForBubble(ds.focusedBubble)
    requires Enumerates(added, ds.relatedForBubble(ds.focusedBubble))
    ensures var related := ds.relatedForBubble(ds.focusedBubble);
            var l3 := FocusConfigured(BubbleCreated(l, ds.focusedBubble), |l.views|);
            var g := Grown(l3.(currentRelated := related), added);
            && LegacyOk(g, stale, allTaps) && FocusIndexOf(g) == Some(ds.focusedBubble) && g.currentRelated == related
  {
    var n, fi, related := |l.views|, ds.focusedBubble, ds.relatedForBubble(ds.focusedBubble);
    RefilledOk(l, a, stale, allTaps, fi, related);
    var l3 := FocusConfigured(BubbleCreated(l, fi), n).(currentRelated := related);
    GrowOk(l3, {fi}, {}, {}, n, stale, allTaps, added, related);
    GrownViews(l3, added);
    FocusedOk(Grown(l3, added), fi, n, {fi} + related, {} + related, {} + related, stale, allTaps);
  }

  /// `reloadData` past its guard focuses the data source's focus with its
  /// related set, and keeps the books. As written it adds the attachments
  /// of the removed related views to the stale ones; with `detach` the
  /// stale attachments stay as they were.
  lemma ReloadedOk(l: Snapshot, stale: set<BubbleId>, allTaps: bool, ds: DataSource, added: seq<Index>, detach: bool)
    requires LegacyOk(l, stale, allTaps)
    requires ds.focusedBubble !in ds.relatedForBubble(ds.focusedBubble)
    requires Enumerates(added, ds.relatedForBubble(ds.focusedBubble))
    ensures Reloadable(l)
    ensures var r := Reloaded(l, ds, added, detach);
            && LegacyOk(r, if detach then stale else stale + RelatedViews(l), allTaps)
            && FocusIndexOf(r) == Some(ds.focusedBubble) && r.currentRelated == ds.relatedForBubble(ds.focusedBubble)
  {
    ReloadClearedOk(l, stale, allTaps, detach);
    var l2 := RelatedDropped(FocusDropped(l), detach);
    ReloadRebuiltOk(l2, Anchor(l), if detach then stale else stale + RelatedViews(l), allTaps, ds, added);
  }

  /// `reloadData` as written, with related bubbles on screen: their
  /// attachments outlive them, so there are more attachments than related
  /// indices.
  lemma ReloadedAsWrittenStale(l: Snapshot, stale: set<BubbleId>, allTaps: bool, ds: DataSource, added: seq<Index>)
    requires LegacyOk(l, stale, allTaps) && l.currentRelated != {}
    requires ds.focusedBubble !in ds.relatedForBubble(ds.focusedBubble)
    requires Enumerates(added, ds.relatedForBubble(ds.focusedBubble))
    ensures Reloadable(l)
    ensures var r := Reloaded(l, ds, added, false);
            && RelatedViews(l) != {} && LegacyOk(r, stale + RelatedViews(l), allTaps)
            && |r.relatedAttachments| > |r.currentRelated|
  {
    ReloadedOk(l, stale, allTaps, ds, added, false);
    var r := Reloaded(l, ds, added, false);
    var i :| i in l.currentRelated;
    assert l.indexToBubble[i] in RelatedViews(l);
    AttachmentCount(r, stale + RelatedViews(l), allTaps);
  }

  /// With stale attachments, the assertion that closes `focus` fails:
  /// there are more attachments than related indices.
  lemma StaleBreaksFocusCount(l: Snapshot, stale: set<BubbleId>, allTaps: bool, newRelated: set<Index>, focusIndex: Index,
                              added: seq<Index>, keepTap: bool)
    requires CanRefocus(l, stale, allTaps, newRelated, focusIndex) && stale != {}
    requires Enumerates(added, ToAdd(newRelated, l.currentRelated, FocusIndexOf(l)))
    ensures Refocusable(l, newRelated, focusIndex)
    ensures var r := Refocused(l, newRelated, focusIndex, added, keepTap);
            |r.relatedAttachments| > |r.currentRelated|
  {
    RefocusedOk(l, stale, allTaps, newRelated, focusIndex, added, keepTap);
    AttachmentCount(Refocused(l, newRelated, focusIndex, added, keepTap), stale, allTaps && keepTap);
  }

  /// Without stale attachments, which the corrected `reloadData` never
  /// leaves, the assertion that closes `focus` holds.
  lemma FocusCountHolds(l: Snapshot, allTaps: bool, newRelated: set<Index>, focusIndex: Index,
                        added: seq<Index>, keepTap: bool)
    requires CanRefocus(l, {}, allTaps, newRelated, focusIndex)
    requires Enumerates(added, ToAdd(newRelated, l.currentRelated, FocusIndexOf(l)))
    ensures Refocusable(l, newRelated, focusIndex)
    ensures var r := Refocused(l, newRelated, focusIndex, added, keepTap);
            |r.relatedAttachments| == |r.currentRelated| == |newRelated|
  {
    RefocusedOk(l, {}, allTaps, newRelated, focusIndex, added, keepTap);
    AttachmentCount(Refocused(l, newRelated, focusIndex, added, keepTap), {}, allTaps && keepTap);
  }

  /// `layoutSubviews`: the focus, if any, is disengaged and configured
  /// again, which snaps it to the new centre.
  function LaidOut(l: Snapshot, keepTap: bool): Snapshot
  {
    match l.focusedBubble
    case Some(f) => FocusConfigured(FocusDisengaged(l, f, keepTap), f)
    case None => l
  }

  /// `layoutSubviews` changes nothing but, as written, the focus's tap
  /// entry, which it drops; with `keepTap` it changes nothing at all.
  lemma LaidOutOk(l: Snapshot, stale: set<BubbleId>, allTaps: bool, keepTap: bool)
    requires LegacyOk(l, stale, allTaps)
    ensures LegacyOk(LaidOut(l, keepTap), stale, allTaps && keepTap)
    ensures LaidOut(l, keepTap).(tapRecognizers := l.tapRecognizers) == l
    ensures keepTap ==> LaidOut(l, keepTap) == l
    ensures l.focusedBubble.Some? && !keepTap ==>
              Alive(l.views, l.focusedBubble.value) && l.focusedBubble.value !in LaidOut(l, keepTap).tapRecognizers
  {
    if l.focusedBubble.Some? {
      var f := l.focusedBubble.value;
      var R := l.currentRelated;
      UnfocusOk(l, Displayed(FocusIndexOf(l), R), R, R, f, stale, allTaps, f, keepTap);
      FocusOk(FocusDisengaged(l, f, keepTap), Displayed(FocusIndexOf(l), R), R, R, f, stale, allTaps && keepTap, f);
    }
  }

  /// An old focus related to the new one stays on screen as a related
  /// bubble; it keeps its tap entry exactly when `disengageFocused` does,
  /// so as written it has none.
  lemma DemotedTapEntry(l: Snapshot, stale: set<BubbleId>, allTaps: bool, newRelated: set<Index>, focusIndex: Index,
                        added: seq<Index>, keepTap: bool)
    requires CanRefocus(l, stale, allTaps, newRelated, focusIndex)
    requires l.focusedBubble.Some? && l.views[l.focusedBubble.value].value in newRelated
    ensures Refocusable(l, newRelated, focusIndex)
    ensures var f, r := l.focusedBubble.value, Refocused(l, newRelated, focusIndex, added, keepTap);
            && Alive(r.views, f) && r.views[f] == l.views[f] && r.views[f].value in r.currentRelated
            && (f in r.tapRecognizers <==> keepTap && f in l.tapRecognizers)
  {
    var f := l.focusedBubble.value;
    DisengagedFacts(l, newRelated, focusIndex, keepTap);
    var l5 := Released(l, RemoveViews(l, newRelated, focusIndex), KeepViews(l, newRelated), keepTap);
    assert f in l5.tapRecognizers <==> keepTap && f in l.tapRecognizers;
    EngagedKeeps(l5, focusIndex);
    var e := Engaged(l5, focusIndex);
    assert f in e.tapRecognizers <==> f in l5.tapRecognizers;
    var s := Placed(e, l.focusedBubble, newRelated);
    assert s == Switched(l, newRelated, focusIndex, keepTap);
    var t := AttachmentsAddedAll(s, KeepViews(l, newRelated));
    GrownViews(t, added);
    assert Refocused(l, newRelated, focusIndex, added, keepTap) == Grown(t, added).(currentRelated := newRelated);
  }

  /// What the force-unwraps in the first steps of `focus` need: the views
  /// to remove are panned, attached, alive and have a behaviour, and the
  /// keepers are attached.
  lemma ReleasableFacts(l: Snapshot, stale: set<BubbleId>, allTaps: bool, newRelated: set<Index>, focusIndex: Index)
    requires CanRefocus(l, stale, allTaps, newRelated, focusIndex)
    ensures Refocusable(l, newRelated, focusIndex)
    ensures ToRemove(newRelated, l.currentRelated, focusIndex) <= l.indexToBubble.Keys
    ensures ToKeep(newRelated, l.currentRelated) <= l.indexToBubble.Keys
    ensures var rv, kv := RemoveViews(l, newRelated, focusIndex), KeepViews(l, newRelated);
            && rv <= l.panRecognizers && rv <= l.relatedAttachments.Keys && kv <= l.relatedAttachments.Keys && rv !! kv
            && (forall b :: b in rv ==> Alive(l.views, b) && b in l.bubbleBehaviors)
  {
    var r, R := Arena(l), l.currentRelated;
    ViewsOfAlive(r, R);
    ViewsOfAlive(r, ToRemove(newRelated, R, focusIndex));
    ViewsOfAlive(r, ToKeep(newRelated, R));
  }

  /// What the force-unwraps in the middle of `focus` need: a promoted
  /// focus is still panned and attached once the first steps are done, and
  /// the old focus is alive with its behaviour once the new one is engaged.
  lemma SwitchableFacts(l: Snapshot, stale: set<BubbleId>, allTaps: bool, newRelated: set<Index>, focusIndex: Index, keepTap: bool)
    requires CanRefocus(l, stale, allTaps, newRelated, focusIndex)
    ensures Refocusable(l, newRelated, focusIndex)
    ensures ToRemove(newRelated, l.currentRelated, focusIndex) <= l.indexToBubble.Keys
    ensures ToKeep(newRelated, l.currentRelated) <= l.indexToBubble.Keys
    ensures var l5 := Released(l, RemoveViews(l, newRelated, focusIndex), KeepViews(l, newRelated), keepTap);
            && (focusIndex in l5.currentRelated ==>
                  && focusIndex in l5.indexToBubble && l5.indexToBubble[focusIndex] in l5.panRecognizers
                  && l5.indexToBubble[focusIndex] in l5.relatedAttachments
                  && Alive(l5.views, l5.indexToBubble[focusIndex]))
            && var e := Engaged(l5, focusIndex);
               l.focusedBubble.Some? ==> Alive(e.views, l.focusedBubble.value) && l.focusedBubble.value in e.bubbleBehaviors
  {
    var R := l.currentRelated;
    var toRemove, toKeep := ToRemove(newRelated, R, focusIndex), ToKeep(newRelated, R);
    ReleasedOk(l, stale, allTaps, newRelated, focusIndex, keepTap);
    DisengagedFacts(l, newRelated, focusIndex, keepTap);
    var l5 := Released(l, RemoveViews(l, newRelated, focusIndex), KeepViews(l, newRelated), keepTap);
    if focusIndex in R {
      assert focusIndex in R - toRemove - toKeep;
      assert l5.indexToBubble[focusIndex] in ViewsOf(l5.indexToBubble, R - toRemove - toKeep);
      assert l5.indexToBubble[focusIndex] in ViewsOf(l5.indexToBubble, R - toRemove);
    }
    SwitchedOnOk(l, stale, allTaps, newRelated, focusIndex, keepTap);
    EngagedKeeps(l5, focusIndex);
  }

  /// What the force-unwraps of `reloadData` need: the old focus has its
  /// behaviour, and once it is gone the related views are registered,
  /// panned, attached, alive and have their behaviours.
  lemma ReloadableFacts(l: Snapshot, stale: set<BubbleId>, allTaps: bool)
    requires LegacyOk(l, stale, allTaps)
    ensures Reloadable(l)
    ensures l.focusedBubble.Some? ==> l.focusedBubble.value in l.bubbleBehaviors
    ensures var l1 := FocusDropped(l);
            && l1.currentRelated <= l1.indexToBubble.Keys
            && RelatedViews(l1) <= l1.panRecognizers && RelatedViews(l1) <= l1.relatedAttachments.Keys
            && (forall b :: b in RelatedViews(l1) ==> Alive(l1.views, b) && b in l1.bubbleBehaviors)
  {
    var R, l1 := l.currentRelated, FocusDropped(l);
    var rv := ViewsOf(l.indexToBubble, R);
    ViewsOfAlive(Arena(l), R);
    assert l1.panRecognizers == l.panRecognizers && l1.relatedAttachments == l.relatedAttachments;
    if l.focusedBubble.Some? {
      var f := l.focusedBubble.value;
      assert l1.indexToBubble == l.indexToBubble - {l.views[f].value};
      assert f !in rv;
      assert l1.bubbleBehaviors == l.bubbleBehaviors - {f};
    }
    FocusSteps.ViewsOfUnchanged(l.indexToBubble, l1.indexToBubble, R);
    assert RelatedViews(l1) == rv;
  }
}
