/** The state of a `BubblesView` as values: the registry of bubble views (the
    arena, `indexToBubble` and the recogniser dictionaries), the scene
    (`currentRelated`, `focusedBubble`, `dragOffsets`), the invariant that
    ties them to the animator's bookkeeping, and how each step of the
    reconciler transforms them. Bubble views live in an arena: `views[id]` is
    the `index` property of the view created as the `id`-th, `None` once it
    was removed. */
module ViewState {
  import opened Core
  import opened FocusSets
  import opened Animator

  /// The arena of views, `indexToBubble`, and the bubbles that own a tap and
  /// a pan recogniser (the recogniser objects themselves carry no logic).
  datatype RegistryState = RegistryState(
    views: seq<Option<Index>>,
    indexToBubble: map<Index, BubbleId>,
    tapRecognizers: set<BubbleId>,
    panRecognizers: set<BubbleId>)

  /// What is on screen: the related indices, the focused view and the
  /// bubbles being dragged with their finger offsets.
  datatype SceneState = SceneState(
    currentRelated: set<Index>,
    focusedBubble: Option<BubbleId>,
    dragOffsets: map<BubbleId, Point>)

  const EmptyRegistry := RegistryState([], map[], {}, {})
  const EmptyScene := SceneState({}, None, map[])

  /// The view `id` exists and still has an index.
  predicate Alive(v: seq<Option<Index>>, id: int)
  {
    0 <= id < |v| && v[id].Some?
  }

  function LiveIds(v: seq<Option<Index>>): set<BubbleId>
  {
    set id: BubbleId | id < |v| && v[id].Some?
  }

  /// `indexToBubble` is exactly the inverse of the live part of the arena,
  /// and every live view, and nothing else, owns a tap and a pan recogniser.
  ghost predicate RegistryOk(r: RegistryState)
  {
    && (forall i :: i in r.indexToBubble ==>
          Alive(r.views, r.indexToBubble[i]) && r.views[r.indexToBubble[i]] == Some(i))
    && (forall id :: Alive(r.views, id) ==>
          r.views[id].value in r.indexToBubble && r.indexToBubble[r.views[id].value] == id)
    && r.tapRecognizers == LiveIds(r.views)
    && r.panRecognizers == LiveIds(r.views)
  }

  /// `configureBubble` followed by `bubble.index = index`: a new view in the arena.
  function Configured(r: RegistryState, index: Index): RegistryState
  {
    r.(views := r.views + [Some(index)])
  }

  /// `addBubble`: the bubble gets its recognisers and is registered under its index.
  function Added(r: RegistryState, bubble: BubbleId): RegistryState
    requires Alive(r.views, bubble)
  {
    r.(indexToBubble := r.indexToBubble[r.views[bubble].value := bubble],
       tapRecognizers := r.tapRecognizers + {bubble},
       panRecognizers := r.panRecognizers + {bubble})
  }

  /// `removeBubble`: the recognisers and the registration go, and the index is niled.
  function Removed(r: RegistryState, bubble: BubbleId): RegistryState
    requires Alive(r.views, bubble)
  {
    r.(views := r.views[bubble := None],
       indexToBubble := r.indexToBubble - {r.views[bubble].value},
       tapRecognizers := r.tapRecognizers - {bubble},
       panRecognizers := r.panRecognizers - {bubble})
  }

  /// `indices.map{indexToBubble[$0]!}`.
  function ViewsOf(m: map<Index, BubbleId>, indices: set<Index>): set<BubbleId>
    requires indices <= m.Keys
  {
    set i | i in indices :: m[i]
  }

  /// The indices shown by the live views among `ids`.
  ghost function IndicesOf(v: seq<Option<Index>>, ids: set<BubbleId>): set<Index>
  {
    set id | id in ids && Alive(v, id) :: v[id].value
  }

  /// `removeBubble` on every view of `ids`, in any order.
  ghost function Dropped(r: RegistryState, ids: set<BubbleId>): RegistryState
  {
    RegistryState(seq(|r.views|, k requires 0 <= k < |r.views| => if k in ids then None else r.views[k]),
                  r.indexToBubble - IndicesOf(r.views, ids),
                  r.tapRecognizers - ids,
                  r.panRecognizers - ids)
  }

  /// Configuring and adding a bubble for each index of `added`, in order.
  function Grown(r: RegistryState, added: seq<Index>): RegistryState
    decreases |added|
  {
    if added == [] then r
    else
      var p := Grown(r, added[..|added| - 1]);
      Added(Configured(p, added[|added| - 1]), |p.views|)
  }

  /// The ids `n`, …, `n + k - 1` that the next `k` new views receive.
  function FreshIds(n: nat, k: nat): set<BubbleId>
  {
    if k == 0 then {} else FreshIds(n, k - 1) + {n + k - 1}
  }

  /// The next fresh id joins the ones before it.
  lemma FreshIdsNext(n: nat, k: nat)
    ensures FreshIds(n, k + 1) == FreshIds(n, k) + {n + k}
  {
  }

  lemma {:induction false} FreshIdsRange(n: nat, k: nat)
    ensures forall id :: id in FreshIds(n, k) <==> n <= id < n + k
  {
    if k > 0 {
      FreshIdsRange(n, k - 1);
    }
  }

  /// Configuring and adding a bubble for a new index keeps the registry
  /// consistent and registers the new view under that index.
  lemma AddedOk(r: RegistryState, index: Index)
    requires RegistryOk(r) && index !in r.indexToBubble
    ensures var a := Added(Configured(r, index), |r.views|);
            && RegistryOk(a)
            && a.indexToBubble.Keys == r.indexToBubble.Keys + {index}
            && a.indexToBubble[index] == |r.views|
            && LiveIds(a.views) == LiveIds(r.views) + {|r.views|}
  {
    var c := Configured(r, index);
    var a := Added(c, |r.views|);
    forall id | Alive(a.views, id)
      ensures a.views[id].value in a.indexToBubble && a.indexToBubble[a.views[id].value] == id
    {
      if id < |r.views| {
        assert Alive(r.views, id) && a.views[id] == r.views[id];
      }
    }
    assert LiveIds(a.views) == LiveIds(r.views) + {|r.views|} by {
      forall id: BubbleId ensures id in LiveIds(a.views) <==> id in LiveIds(r.views) + {|r.views|} {
        if id < |r.views| { assert a.views[id] == r.views[id]; }
      }
    }
  }

  /// Removing a live view keeps the registry consistent and forgets exactly
  /// its index.
  lemma RemovedOk(r: RegistryState, bubble: BubbleId)
    requires RegistryOk(r) && Alive(r.views, bubble)
    ensures var d := Removed(r, bubble);
            && RegistryOk(d)
            && d.indexToBubble.Keys == r.indexToBubble.Keys - {r.views[bubble].value}
            && LiveIds(d.views) == LiveIds(r.views) - {bubble}
            && |d.views| == |r.views|
  {
    var d := Removed(r, bubble);
    forall i | i in d.indexToBubble
      ensures Alive(d.views, d.indexToBubble[i]) && d.views[d.indexToBubble[i]] == Some(i)
    {
      assert r.indexToBubble[i] != bubble;
    }
  }

  /// Adding a bubble for a new index and removing it again leaves only the
  /// dead view in the arena.
  lemma AddRemoveRoundTrip(r: RegistryState, index: Index)
    requires RegistryOk(r) && index !in r.indexToBubble
    ensures Removed(Added(Configured(r, index), |r.views|), |r.views|) == r.(views := r.views + [None])
  {
    var a := Added(Configured(r, index), |r.views|);
    assert |r.views| !in LiveIds(r.views);
    assert Removed(a, |r.views|).views == r.views + [None];
  }

  /// Under a consistent registry, the views of `indices` are the live views
  /// showing one of them.
  lemma ViewsOfAlive(r: RegistryState, indices: set<Index>)
    requires RegistryOk(r) && indices <= r.indexToBubble.Keys
    ensures forall id :: id in ViewsOf(r.indexToBubble, indices) <==> Alive(r.views, id) && r.views[id].value in indices
    ensures IndicesOf(r.views, ViewsOf(r.indexToBubble, indices)) == indices
  {
    var ids := ViewsOf(r.indexToBubble, indices);
    forall id | Alive(r.views, id) && r.views[id].value in indices ensures id in ids {
      var i := r.views[id].value;
      assert r.indexToBubble[i] == id;
      assert r.indexToBubble[i] in ids;
    }
    forall i | i in indices ensures i in IndicesOf(r.views, ids) {
      assert r.indexToBubble[i] in ids;
    }
  }

  /// Views of disjoint index sets are disjoint; views of a union are the union.
  lemma ViewsOfUnion(r: RegistryState, s: set<Index>, t: set<Index>)
    requires RegistryOk(r) && s + t <= r.indexToBubble.Keys
    ensures ViewsOf(r.indexToBubble, s + t) == ViewsOf(r.indexToBubble, s) + ViewsOf(r.indexToBubble, t)
    ensures s !! t ==> ViewsOf(r.indexToBubble, s) !! ViewsOf(r.indexToBubble, t)
  {
    ViewsOfAlive(r, s);
    ViewsOfAlive(r, t);
  }

  /// Removing no view changes nothing.
  lemma DroppedNone(r: RegistryState)
    ensures Dropped(r, {}) == r
  {
    assert IndicesOf(r.views, {}) == {};
    assert Dropped(r, {}).views == r.views;
  }

  /// Removing the views of `ids` one at a time.
  lemma DroppedStep(r: RegistryState, ids: set<BubbleId>, bubble: BubbleId)
    requires Alive(r.views, bubble) && bubble !in ids
    ensures Alive(Dropped(r, ids).views, bubble) && Dropped(r, ids).views[bubble] == r.views[bubble]
    ensures Removed(Dropped(r, ids), bubble) == Dropped(r, ids + {bubble})
  {
    assert IndicesOf(r.views, ids + {bubble}) == IndicesOf(r.views, ids) + {r.views[bubble].value};
    assert Removed(Dropped(r, ids), bubble).views == Dropped(r, ids + {bubble}).views;
  }

  /// Removing the views of some registered indices keeps the registry
  /// consistent and forgets exactly those indices.
  lemma DroppedOk(r: RegistryState, indices: set<Index>)
    requires RegistryOk(r) && indices <= r.indexToBubble.Keys
    ensures var ids := ViewsOf(r.indexToBubble, indices);
            var d := Dropped(r, ids);
            && RegistryOk(d)
            && d.indexToBubble == r.indexToBubble - indices
            && LiveIds(d.views) == LiveIds(r.views) - ids
            && |d.views| == |r.views|
            && (forall id :: 0 <= id < |r.views| && id !in ids ==> d.views[id] == r.views[id])
  {
    var ids := ViewsOf(r.indexToBubble, indices);
    ViewsOfAlive(r, indices);
    var d := Dropped(r, ids);
    forall i | i in d.indexToBubble
      ensures Alive(d.views, d.indexToBubble[i]) && d.views[d.indexToBubble[i]] == Some(i)
    {
      assert r.indexToBubble[i] !in ids;
    }
    assert LiveIds(d.views) == LiveIds(r.views) - ids by {
      forall id: BubbleId ensures id in LiveIds(d.views) <==> id in LiveIds(r.views) - ids {
      }
    }
  }

  /// The arena after `Grown`: the old views, then one view per added index.
  lemma {:induction false} GrownViews(r: RegistryState, added: seq<Index>)
    ensures var g := Grown(r, added);
            && |g.views| == |r.views| + |added|
            && g.views[..|r.views|] == r.views
            && (forall k :: 0 <= k < |added| ==> g.views[|r.views| + k] == Some(added[k]))
            && LiveIds(g.views) == LiveIds(r.views) + FreshIds(|r.views|, |added|)
    decreases |added|
  {
    if added != [] {
      var n := |added| - 1;
      GrownViews(r, added[..n]);
      var p := Grown(r, added[..n]);
      var g := Grown(r, added);
      assert g.views == p.views + [Some(added[n])];
      forall k | 0 <= k < |added| ensures g.views[|r.views| + k] == Some(added[k]) {
        if k < n { assert p.views[|r.views| + k] == Some(added[..n][k]); }
      }
      assert g.views[..|r.views|] == p.views[..|r.views|];
      assert LiveIds(g.views) == LiveIds(p.views) + {|p.views|} by {
        forall id: BubbleId ensures id in LiveIds(g.views) <==> id in LiveIds(p.views) + {|p.views|} {
          if id < |p.views| { assert g.views[id] == p.views[id]; }
        }
      }
    }
  }

  lemma GrownLast(r: RegistryState, added: seq<Index>)
    requires added != []
    ensures var p := Grown(r, added[..|added| - 1]);
            && Grown(r, added).indexToBubble == p.indexToBubble[added[|added| - 1] := |p.views|]
            && |Grown(r, added).views| == |p.views| + 1
  {
  }

  lemma {:induction false} GrownLength(r: RegistryState, added: seq<Index>)
    ensures |Grown(r, added).views| == |r.views| + |added|
    decreases |added|
  {
    if added != [] {
      GrownLength(r, added[..|added| - 1]);
    }
  }

  /// `Grown` registers exactly the old and the added indices, and keeps
  /// every old registration of an index it does not add.
  lemma {:induction false} GrownKeys(r: RegistryState, added: seq<Index>)
    ensures var g := Grown(r, added);
            && (forall i :: i in g.indexToBubble <==> i in r.indexToBubble || i in added)
            && (forall i :: i in r.indexToBubble && i !in added ==> g.indexToBubble[i] == r.indexToBubble[i])
    decreases |added|
  {
    if added != [] {
      var n := |added| - 1;
      var front := added[..n];
      GrownKeys(r, front);
      GrownLast(r, added);
      assert added == front + [added[n]];
    }
  }

  /// Each distinct added index is registered on its fresh id.
  lemma {:induction false} GrownFresh(r: RegistryState, added: seq<Index>)
    requires NoDup(added)
    ensures forall k :: 0 <= k < |added| ==>
              added[k] in Grown(r, added).indexToBubble && Grown(r, added).indexToBubble[added[k]] == |r.views| + k
    decreases |added|
  {
    if added != [] {
      var n := |added| - 1;
      var front := added[..n];
      assert NoDup(front);
      GrownFresh(r, front);
      GrownLength(r, front);
      GrownLast(r, added);
      forall k | 0 <= k < n ensures added[k] != added[n] && added[k] == front[k] {
      }
    }
  }

  /// `Grown` one index further.
  lemma GrownSnoc(r: RegistryState, added: seq<Index>, i: Index)
    ensures var p := Grown(r, added);
            Grown(r, added + [i]) == Added(Configured(p, i), |p.views|)
  {
    assert (added + [i])[..|added|] == added;
  }

  /// `Grown` over one more element of a prefix of `added`.
  lemma GrownPrefix(r: RegistryState, added: seq<Index>, k: nat)
    requires k < |added|
    ensures var p := Grown(r, added[..k]);
            Grown(r, added[..k + 1]) == Added(Configured(p, added[k]), |p.views|)
  {
    assert added[..k + 1] == added[..k] + [added[k]];
    GrownSnoc(r, added[..k], added[k]);
  }

  /// Growing by distinct new indices keeps the registry consistent.
  lemma {:induction false} GrownOk(r: RegistryState, added: seq<Index>)
    requires RegistryOk(r) && NoDup(added)
    requires forall k :: 0 <= k < |added| ==> added[k] !in r.indexToBubble
    ensures RegistryOk(Grown(r, added))
    decreases |added|
  {
    if added != [] {
      var n := |added| - 1;
      var front := added[..n];
      assert NoDup(front);
      GrownOk(r, front);
      GrownKeys(r, front);
      var p := Grown(r, front);
      var i := added[n];
      assert i !in p.indexToBubble by {
        assert forall k :: 0 <= k < n ==> front[k] != i;
      }
      assert Grown(r, added) == Added(Configured(p, i), |p.views|);
      AddedOk(p, i);
    }
  }

  /// A consistent registry hands out one tap and one pan recogniser per
  /// registered index.
  lemma RecognizerCounts(r: RegistryState)
    requires RegistryOk(r)
    ensures |r.tapRecognizers| == |r.indexToBubble.Keys| && |r.panRecognizers| == |r.indexToBubble.Keys|
  {
    var m := r.indexToBubble;
    assert Injective(m) by {
      forall a, b | a in m && b in m && m[a] == m[b] ensures a == b {
        assert r.views[m[a]] == Some(a) && r.views[m[b]] == Some(b);
      }
    }
    InjectiveValuesCount(m);
    assert LiveIds(r.views) == m.Values by {
      forall id | id in LiveIds(r.views) ensures id in m.Values {
        assert Alive(r.views, id);
        assert m[r.views[id].value] == id;
      }
      forall i | i in m ensures m[i] in LiveIds(r.views) {
        assert Alive(r.views, m[i]);
      }
    }
  }

  /// What is on screen agrees with the registry: nothing without a focus;
  /// otherwise the registered indices are exactly the focus and its related
  /// set, the focus is not related to itself, and only live related bubbles
  /// are dragged.
  ghost predicate ShapeOk(r: RegistryState, sc: SceneState)
  {
    match sc.focusedBubble
    case None => r.indexToBubble == map[] && sc.currentRelated == {} && sc.dragOffsets == map[]
    case Some(fb) =>
      && Alive(r.views, fb) && r.views[fb].value !in sc.currentRelated
      && r.indexToBubble.Keys == {r.views[fb].value} + sc.currentRelated
      && sc.dragOffsets.Keys <= LiveIds(r.views) - {fb}
  }

  /// The animator's bookkeeping agrees with the scene: every live bubble not
  /// being dragged has a behaviour and is in the gravity and collision sets;
  /// the snap holds the focused bubble; exactly the related bubbles not being
  /// dragged are attached to it; and the protocol has been kept so far.
  ghost predicate AnimatedOk(r: RegistryState, sc: SceneState, s: AnimatorState)
  {
    && s.bubbleBehaviors.Keys == LiveIds(r.views) - sc.dragOffsets.Keys
    && s.gravityItems == s.bubbleBehaviors.Keys
    && s.collisionItems == s.bubbleBehaviors.Keys
    && s.protocolKept
    && match sc.focusedBubble
       case None => s.relatedAttachments == map[] && s.focusedSnap == None
       case Some(fb) =>
         && s.focusedSnap.Some? && s.focusedSnap.value.item == fb
         && sc.currentRelated <= r.indexToBubble.Keys
         && s.relatedAttachments == AttachAll(ViewsOf(r.indexToBubble, sc.currentRelated) - sc.dragOffsets.Keys, fb)
  }

  ghost predicate Consistent(r: RegistryState, sc: SceneState, s: AnimatorState)
  {
    RegistryOk(r) && ShapeOk(r, sc) && AnimatedOk(r, sc, s)
  }

  /// The focused bubble is never attached to itself: it is registered under
  /// its own index, which is not related.
  lemma FocusUnattached(r: RegistryState, sc: SceneState, s: AnimatorState)
    requires Consistent(r, sc, s) && sc.focusedBubble.Some?
    ensures sc.focusedBubble.value !in s.relatedAttachments
  {
  }

  lemma EmptyConsistent()
    ensures Consistent(EmptyRegistry, EmptyScene, Idle)
  {
    assert LiveIds([]) == {};
  }

  /// The index of the focused view.
  function FocusedIndexOf(r: RegistryState, sc: SceneState): Option<Index>
  {
    match sc.focusedBubble
    case Some(fb) => if 0 <= fb < |r.views| then r.views[fb] else None
    case None => None
  }

  /// The assertions at the end of `focus`: one tap and one pan recogniser
  /// per displayed index.
  lemma ConsistentCounts(r: RegistryState, sc: SceneState, s: AnimatorState)
    requires Consistent(r, sc, s) && sc.focusedBubble.Some?
    ensures |r.tapRecognizers| == 1 + |sc.currentRelated| && |r.panRecognizers| == 1 + |sc.currentRelated|
  {
    RecognizerCounts(r);
    var fi := r.views[sc.focusedBubble.value].value;
    assert |{fi} + sc.currentRelated| == 1 + |sc.currentRelated|;
  }
  /// The gesture's velocity doubled, as a vector.
  function Amplified(velocity: Vector): Vector
  {
    Vector(velocity.dx * 2.0, velocity.dy * 2.0)
  }

  /// The end of a drag: `addRelatedBehaviors`, `addBehaviors`, then a push
  /// with twice the gesture's velocity.
  function Released(s: AnimatorState, bubble: BubbleId, focused: BubbleId, velocity: Vector): AnimatorState
  {
    Pushed(WithBehaviors(Tied(s, bubble, focused), bubble), bubble, Amplified(velocity))
  }

  /// Starting to drag a live related bubble keeps the view consistent: the
  /// bubble leaves its attachment and its behaviours, in that order.
  lemma DragBeganOk(r: RegistryState, sc: SceneState, s: AnimatorState, bubble: BubbleId, offset: Point)
    requires Consistent(r, sc, s) && Alive(r.views, bubble) && sc.focusedBubble != Some(bubble)
    ensures Consistent(r, sc.(dragOffsets := sc.dragOffsets[bubble := offset]),
                       WithoutBehaviors(Untied(s, bubble), bubble))
  {
    assert r.views[bubble].value in r.indexToBubble;
    var sc' := sc.(dragOffsets := sc.dragOffsets[bubble := offset]);
    var s' := WithoutBehaviors(Untied(s, bubble), bubble);
    assert bubble in LiveIds(r.views);
    if sc.focusedBubble.Some? {
      var fb, related := sc.focusedBubble.value, ViewsOf(r.indexToBubble, sc.currentRelated);
      assert related - sc'.dragOffsets.Keys == (related - sc.dragOffsets.Keys) - {bubble};
      AttachAllWith(related - sc.dragOffsets.Keys, bubble, fb);
    }
  }

  /// Ending the drag of a live related bubble keeps the view consistent: it
  /// is attached to the focused bubble again and has a behaviour.
  lemma DragEndedOk(r: RegistryState, sc: SceneState, s: AnimatorState, bubble: BubbleId, velocity: Vector)
    requires Consistent(r, sc, s) && Alive(r.views, bubble) && sc.focusedBubble.Some? && sc.focusedBubble != Some(bubble)
    ensures Consistent(r, sc.(dragOffsets := sc.dragOffsets - {bubble}),
                       Released(s, bubble, sc.focusedBubble.value, velocity))
  {
    var fb := sc.focusedBubble.value;
    var i := r.views[bubble].value;
    assert r.indexToBubble[i] == bubble;
    assert i in sc.currentRelated;
    var related := ViewsOf(r.indexToBubble, sc.currentRelated);
    assert bubble in related;
    var sc' := sc.(dragOffsets := sc.dragOffsets - {bubble});
    var tied := Tied(s, bubble, fb);
    var joined := WithBehaviors(tied, bubble);
    var s' := Pushed(joined, bubble, Amplified(velocity));
    assert s'.bubbleBehaviors.Keys == joined.bubbleBehaviors.Keys;
    assert s'.(bubbleBehaviors := joined.bubbleBehaviors) == joined;
    assert bubble in LiveIds(r.views);
    assert joined.bubbleBehaviors.Keys == LiveIds(r.views) - sc'.dragOffsets.Keys;
    assert related - sc'.dragOffsets.Keys == (related - sc.dragOffsets.Keys) + {bubble};
    AttachAllWith(related - sc.dragOffsets.Keys, bubble, fb);
  }
}
