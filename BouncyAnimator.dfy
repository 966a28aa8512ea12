/** `BouncyAnimator`: the bookkeeping of the default animator, and the
    call-ordering contracts that the `BubblesViewAnimator` protocol states in
    its doc comments. The physics engine behind the behaviours
    (`UIDynamicAnimator`) is not modelled; only the dictionaries and the
    snap field that the animator keeps about the bubbles are. */
module Animator {
  import opened Core

  /// The rod length of every related attachment.
  const AttachmentLength: int := 120

  /// A `UISnapBehavior`: which bubble it holds and where.
  datatype Snap = Snap(item: BubbleId, snapPoint: Point)

  /// A `UIAttachmentBehavior` from a related bubble to the focused one.
  datatype Attachment = Attachment(anchor: BubbleId, length: int)

  /// A `BubbleBehavior`, identified by the linear velocity added to it so far.
  datatype Behavior = Behavior(velocity: Vector)

  /// The animator's bookkeeping as a value. `protocolKept` is false once a
  /// call has broken an ordering the protocol promises: `removeBehaviors` on
  /// a bubble whose related or focused behaviours are still in place, or
  /// `addFocusedBehaviors` on a bubble that is still related.
  datatype AnimatorState = AnimatorState(
    focusedSnap: Option<Snap>,
    bubbleBehaviors: map<BubbleId, Behavior>,
    relatedAttachments: map<BubbleId, Attachment>,
    collisionItems: set<BubbleId>,
    gravityItems: set<BubbleId>,
    protocolKept: bool)

  /// Nothing is managed yet (a freshly configured animator).
  const Idle := AnimatorState(None, map[], map[], {}, {}, true)

  const Still := Behavior(Vector(0.0, 0.0))

  function AddVectors(a: Vector, b: Vector): Vector
  {
    Vector(a.dx + b.dx, a.dy + b.dy)
  }

  /// The bubble still holds a related attachment or the focused snap.
  predicate Engaged(s: AnimatorState, bubble: BubbleId)
  {
    bubble in s.relatedAttachments || (s.focusedSnap.Some? && s.focusedSnap.value.item == bubble)
  }

  /// `addBehaviors`: a fresh behaviour, and the bubble joins gravity and collision.
  function WithBehaviors(s: AnimatorState, bubble: BubbleId): AnimatorState
  {
    s.(bubbleBehaviors := s.bubbleBehaviors[bubble := Still],
       gravityItems := s.gravityItems + {bubble},
       collisionItems := s.collisionItems + {bubble})
  }

  /// `removeBehaviors`: tolerates a bubble without a behaviour.
  function WithoutBehaviors(s: AnimatorState, bubble: BubbleId): AnimatorState
  {
    s.(bubbleBehaviors := s.bubbleBehaviors - {bubble},
       gravityItems := s.gravityItems - {bubble},
       collisionItems := s.collisionItems - {bubble},
       protocolKept := s.protocolKept && !Engaged(s, bubble))
  }

  /// `addVelocity`: only a bubble with a behaviour is pushed.
  function Pushed(s: AnimatorState, bubble: BubbleId, velocity: Vector): AnimatorState
  {
    if bubble in s.bubbleBehaviors then
      s.(bubbleBehaviors := s.bubbleBehaviors[bubble := Behavior(AddVectors(s.bubbleBehaviors[bubble].velocity, velocity))])
    else s
  }

  /// `addRelatedBehaviors`: a rod of length 120 to the focused bubble, and collision.
  function Tied(s: AnimatorState, bubble: BubbleId, focused: BubbleId): AnimatorState
  {
    s.(relatedAttachments := s.relatedAttachments[bubble := Attachment(focused, AttachmentLength)],
       collisionItems := s.collisionItems + {bubble})
  }

  /// `removeRelatedBehaviors`: a bubble without an attachment changes nothing.
  function Untied(s: AnimatorState, bubble: BubbleId): AnimatorState
  {
    s.(relatedAttachments := s.relatedAttachments - {bubble})
  }

  /// `addFocusedBehaviors`: the snap holds the bubble at the view's centre.
  function Snapped(s: AnimatorState, bubble: BubbleId, viewCenter: Point): AnimatorState
  {
    s.(focusedSnap := Some(Snap(bubble, viewCenter)),
       protocolKept := s.protocolKept && bubble !in s.relatedAttachments)
  }

  /// `removeFocusedBehaviors`: whatever the snap was, there is none afterwards.
  function Unsnapped(s: AnimatorState): AnimatorState
  {
    s.(focusedSnap := None)
  }

  /// `layoutChanged`: moves the snap point, only while the view has a focus.
  function Relaid(s: AnimatorState, viewFocused: Option<BubbleId>, viewCenter: Point): AnimatorState
  {
    if viewFocused.Some? && s.focusedSnap.Some? then
      s.(focusedSnap := Some(Snap(s.focusedSnap.value.item, viewCenter)))
    else s
  }

  /// The value `v` under every bubble of `ids`.
  ghost function ConstMap<V>(ids: set<BubbleId>, v: V): (m: map<BubbleId, V>)
    ensures m.Keys == ids
    ensures forall id :: id in m ==> m[id] == v
  {
    map id | id in ids :: v
  }

  /// The attachments of the bubbles `ids`, each to `focused` with the standard length.
  ghost function AttachAll(ids: set<BubbleId>, focused: BubbleId): map<BubbleId, Attachment>
  {
    ConstMap(ids, Attachment(focused, AttachmentLength))
  }

  /// A fresh behaviour for every bubble of `ids`.
  ghost function StillAll(ids: set<BubbleId>): map<BubbleId, Behavior>
  {
    ConstMap(ids, Still)
  }

  /// Attaching one more bubble, or one fewer.
  lemma AttachAllWith(ids: set<BubbleId>, b: BubbleId, focused: BubbleId)
    ensures AttachAll(ids, focused)[b := Attachment(focused, AttachmentLength)] == AttachAll(ids + {b}, focused)
    ensures AttachAll(ids, focused) - {b} == AttachAll(ids - {b}, focused)
  {
  }

  /// A dictionary that holds `v` under exactly the bubbles of `ids` is the
  /// constant one, however it was built.
  lemma ConstMapIs<V>(m: map<BubbleId, V>, ids: set<BubbleId>, v: V)
    requires m.Keys == ids && forall id :: id in m ==> m[id] == v
    ensures m == ConstMap(ids, v)
  {
  }

  /// Detaching a set of bubbles, and attaching two sets to the same bubble.
  lemma AttachAllMinus(ids: set<BubbleId>, gone: set<BubbleId>, focused: BubbleId)
    ensures AttachAll(ids, focused) - gone == AttachAll(ids - gone, focused)
  {
    ConstMapIs(AttachAll(ids, focused) - gone, ids - gone, Attachment(focused, AttachmentLength));
  }

  lemma AttachAllUnion(ids: set<BubbleId>, more: set<BubbleId>, focused: BubbleId)
    ensures AttachAll(ids, focused) + AttachAll(more, focused) == AttachAll(ids + more, focused)
  {
    ConstMapIs(AttachAll(ids, focused) + AttachAll(more, focused), ids + more, Attachment(focused, AttachmentLength));
  }

  /// With nothing attached, the anchor does not matter.
  lemma AttachNone(a: BubbleId, b: BubbleId)
    ensures AttachAll({}, a) == AttachAll({}, b) == map[]
  {
    ConstMapIs(map[], {}, Attachment(a, AttachmentLength));
    ConstMapIs(map[], {}, Attachment(b, AttachmentLength));
  }

  /// `removeRelatedBehaviors` on every bubble of `ids`.
  function UntiedAll(s: AnimatorState, ids: set<BubbleId>): AnimatorState
  {
    s.(relatedAttachments := s.relatedAttachments - ids)
  }

  /// `addRelatedBehaviors` on every bubble of `ids`.
  ghost function TiedAll(s: AnimatorState, ids: set<BubbleId>, focused: BubbleId): AnimatorState
  {
    s.(relatedAttachments := s.relatedAttachments + AttachAll(ids, focused),
       collisionItems := s.collisionItems + ids)
  }

  /// `removeBehaviors` on every bubble of `ids`; the protocol holds exactly
  /// when none of them is attached or snapped.
  function WithoutBehaviorsAll(s: AnimatorState, ids: set<BubbleId>): AnimatorState
  {
    s.(bubbleBehaviors := s.bubbleBehaviors - ids,
       gravityItems := s.gravityItems - ids,
       collisionItems := s.collisionItems - ids,
       protocolKept := s.protocolKept && ids !! s.relatedAttachments.Keys
                       && !(s.focusedSnap.Some? && s.focusedSnap.value.item in ids))
  }

  /// `addBehaviors` followed by `addRelatedBehaviors` on every bubble of `ids`.
  ghost function JoinedAll(s: AnimatorState, ids: set<BubbleId>, focused: BubbleId): AnimatorState
  {
    s.(bubbleBehaviors := s.bubbleBehaviors + StillAll(ids),
       gravityItems := s.gravityItems + ids,
       collisionItems := s.collisionItems + ids,
       relatedAttachments := s.relatedAttachments + AttachAll(ids, focused))
  }

  /// No call ever restores a broken protocol.
  lemma ProtocolNeverRestored(s: AnimatorState, bubble: BubbleId, focused: BubbleId, v: Vector, c: Point, f: Option<BubbleId>)
    requires !s.protocolKept
    ensures !WithBehaviors(s, bubble).protocolKept && !WithoutBehaviors(s, bubble).protocolKept
    ensures !Pushed(s, bubble, v).protocolKept && !Tied(s, bubble, focused).protocolKept
    ensures !Untied(s, bubble).protocolKept && !Snapped(s, bubble, c).protocolKept
    ensures !Unsnapped(s).protocolKept && !Relaid(s, f, c).protocolKept
  {
  }

  /// Removing a bubble in the order the protocol prescribes (its related and
  /// focused behaviours first) keeps the protocol; skipping either step
  /// breaks it whenever that behaviour was in place.
  lemma OrderlyRemoval(s: AnimatorState, bubble: BubbleId)
    ensures WithoutBehaviors(Unsnapped(Untied(s, bubble)), bubble).protocolKept == s.protocolKept
    ensures bubble in s.relatedAttachments ==> !WithoutBehaviors(s, bubble).protocolKept
    ensures s.focusedSnap.Some? && s.focusedSnap.value.item == bubble ==>
              !WithoutBehaviors(Untied(s, bubble), bubble).protocolKept
  {
  }

  /// Tying and untying a bubble that was not attached restores the attachments.
  lemma TieRoundTrip(s: AnimatorState, bubble: BubbleId, focused: BubbleId)
    requires bubble !in s.relatedAttachments
    ensures Untied(Tied(s, bubble, focused), bubble).relatedAttachments == s.relatedAttachments
    ensures Tied(s, bubble, focused).relatedAttachments[bubble].anchor == focused
  {
  }

  /// Adding and removing the behaviours of an unmanaged bubble restores the
  /// bookkeeping.
  lemma BehaviorsRoundTrip(s: AnimatorState, bubble: BubbleId)
    requires bubble !in s.bubbleBehaviors && bubble !in s.gravityItems && bubble !in s.collisionItems
    requires !Engaged(s, bubble)
    ensures WithoutBehaviors(WithBehaviors(s, bubble), bubble) == s
  {
  }

  /// Pushes accumulate: two pushes are one push by the sum of the velocities.
  lemma PushesAdd(s: AnimatorState, bubble: BubbleId, v: Vector, w: Vector)
    ensures Pushed(Pushed(s, bubble, v), bubble, w) == Pushed(s, bubble, AddVectors(v, w))
    ensures Pushed(s, bubble, v).bubbleBehaviors.Keys == s.bubbleBehaviors.Keys
  {
  }

  /// `removeBehaviors` as the view's books record it. An animator that hears
  /// the call (`heard`) removes the behaviours as `WithoutBehaviors` does;
  /// with no animator nothing holds the bubble, so its attachment goes too.
  function Discarded(s: AnimatorState, bubble: BubbleId, heard: bool): AnimatorState
  {
    WithoutBehaviors(if heard then s else Untied(s, bubble), bubble)
  }

  /// `removeBehaviors` on every bubble of `ids`, recorded the same way.
  function DiscardedAll(s: AnimatorState, ids: set<BubbleId>, heard: bool): AnimatorState
  {
    WithoutBehaviorsAll(if heard then s else UntiedAll(s, ids), ids)
  }

  /// Removals no animator hears never break the protocol over an
  /// attachment; only a removal of the snapped bubble would.
  lemma UnheardRemovalsKeepProtocol(s: AnimatorState, ids: set<BubbleId>)
    requires !(s.focusedSnap.Some? && s.focusedSnap.value.item in ids)
    ensures DiscardedAll(s, ids, false).protocolKept == s.protocolKept
    ensures DiscardedAll(s, ids, false).relatedAttachments == s.relatedAttachments - ids
  {
  }

  /// A bubble without an attachment is removed the same way, heard or not.
  lemma DiscardedUnattached(s: AnimatorState, bubble: BubbleId, heard: bool)
    requires bubble !in s.relatedAttachments
    ensures Discarded(s, bubble, heard) == WithoutBehaviors(s, bubble)
  {
    assert s.relatedAttachments - {bubble} == s.relatedAttachments;
  }

  lemma DiscardedAllUnattached(s: AnimatorState, ids: set<BubbleId>, heard: bool)
    requires ids !! s.relatedAttachments.Keys
    ensures DiscardedAll(s, ids, heard) == WithoutBehaviorsAll(s, ids)
  {
    assert s.relatedAttachments - ids == s.relatedAttachments;
  }

  lemma DiscardedNone(s: AnimatorState, heard: bool)
    ensures DiscardedAll(s, {}, heard) == s
  {
    UntiedNone(s);
    WithoutBehaviorsNone(s);
  }

  lemma DiscardedAllStep(s: AnimatorState, ids: set<BubbleId>, b: BubbleId, heard: bool)
    ensures DiscardedAll(s, ids + {b}, heard) == Discarded(DiscardedAll(s, ids, heard), b, heard)
  {
    if heard {
      WithoutBehaviorsAllStep(s, ids, b);
    } else {
      assert s.relatedAttachments - (ids + {b}) == s.relatedAttachments - ids - {b};
      assert s.bubbleBehaviors - (ids + {b}) == s.bubbleBehaviors - ids - {b};
    }
  }

  /// A pass over no bubble changes nothing.
  lemma UntiedNone(s: AnimatorState)
    ensures UntiedAll(s, {}) == s
  {
    assert s.relatedAttachments - {} == s.relatedAttachments;
  }

  lemma TiedNone(s: AnimatorState, focused: BubbleId)
    ensures TiedAll(s, {}, focused) == s
  {
    assert s.relatedAttachments + AttachAll({}, focused) == s.relatedAttachments;
    assert s.collisionItems + {} == s.collisionItems;
  }

  lemma WithoutBehaviorsNone(s: AnimatorState)
    ensures WithoutBehaviorsAll(s, {}) == s
  {
    assert s.bubbleBehaviors - {} == s.bubbleBehaviors;
    assert s.gravityItems - {} == s.gravityItems && s.collisionItems - {} == s.collisionItems;
  }

  lemma JoinedNone(s: AnimatorState, focused: BubbleId)
    ensures JoinedAll(s, {}, focused) == s
  {
    assert s.relatedAttachments + AttachAll({}, focused) == s.relatedAttachments;
    assert s.bubbleBehaviors + StillAll({}) == s.bubbleBehaviors;
    assert s.gravityItems + {} == s.gravityItems && s.collisionItems + {} == s.collisionItems;
  }

  /// The passes over a set of bubbles, one bubble at a time.
  lemma UntiedAllStep(s: AnimatorState, ids: set<BubbleId>, b: BubbleId)
    ensures UntiedAll(s, ids + {b}) == Untied(UntiedAll(s, ids), b)
  {
    assert s.relatedAttachments - (ids + {b}) == s.relatedAttachments - ids - {b};
  }

  lemma TiedAllStep(s: AnimatorState, ids: set<BubbleId>, b: BubbleId, focused: BubbleId)
    ensures TiedAll(s, ids + {b}, focused) == Tied(TiedAll(s, ids, focused), b, focused)
  {
    AttachAllStep(s.relatedAttachments, ids, b, focused);
  }

  lemma WithoutBehaviorsAllStep(s: AnimatorState, ids: set<BubbleId>, b: BubbleId)
    ensures WithoutBehaviorsAll(s, ids + {b}) == WithoutBehaviors(WithoutBehaviorsAll(s, ids), b)
  {
    assert s.bubbleBehaviors - (ids + {b}) == s.bubbleBehaviors - ids - {b};
  }

  /// The same pass, over a set given as another plus one bubble.
  lemma JoinedAllNext(s: AnimatorState, ids: set<BubbleId>, more: set<BubbleId>, b: BubbleId, focused: BubbleId)
    requires more == ids + {b}
    ensures JoinedAll(s, more, focused) == Tied(WithBehaviors(JoinedAll(s, ids, focused), b), b, focused)
  {
    JoinedAllStep(s, ids, b, focused);
  }

  lemma StillAllStep(m: map<BubbleId, Behavior>, ids: set<BubbleId>, b: BubbleId)
    ensures m + StillAll(ids + {b}) == (m + StillAll(ids))[b := Still]
  {
  }

  lemma AttachAllStep(m: map<BubbleId, Attachment>, ids: set<BubbleId>, b: BubbleId, focused: BubbleId)
    ensures m + AttachAll(ids + {b}, focused) == (m + AttachAll(ids, focused))[b := Attachment(focused, AttachmentLength)]
  {
  }

  lemma JoinedAllStep(s: AnimatorState, ids: set<BubbleId>, b: BubbleId, focused: BubbleId)
    ensures JoinedAll(s, ids + {b}, focused) == Tied(WithBehaviors(JoinedAll(s, ids, focused), b), b, focused)
  {
    StillAllStep(s.bubbleBehaviors, ids, b);
    AttachAllStep(s.relatedAttachments, ids, b, focused);
    assert s.gravityItems + (ids + {b}) == s.gravityItems + ids + {b};
    assert s.collisionItems + (ids + {b}) == s.collisionItems + ids + {b} + {b};
  }

  class BouncyAnimator {
    var focusedSnap: Option<Snap>
    var bubbleBehaviors: map<BubbleId, Behavior>
    var relatedAttachments: map<BubbleId, Attachment>
    /// The items of `collisionBehavior` and `gravityBehavior`.
    var collisionItems: set<BubbleId>
    var gravityItems: set<BubbleId>
    ghost var protocolKept: bool

    ghost function State(): AnimatorState
      reads this
    {
      AnimatorState(focusedSnap, bubbleBehaviors, relatedAttachments, collisionItems, gravityItems, protocolKept)
    }

    constructor ()
      ensures State() == Idle
    {
      focusedSnap := None;
      bubbleBehaviors := map[];
      relatedAttachments := map[];
      collisionItems := {};
      gravityItems := {};
      protocolKept := true;
    }

    method AddBehaviors(bubble: BubbleId)
      modifies this
      ensures State() == WithBehaviors(old(State()), bubble)
    {
      gravityItems := gravityItems + {bubble};
      bubbleBehaviors := bubbleBehaviors[bubble := Behavior(Vector(0.0, 0.0))];
      collisionItems := collisionItems + {bubble};
    }

    /// The protocol promises that related and focused behaviours are gone by then.
    method RemoveBehaviors(bubble: BubbleId)
      modifies this
      ensures State() == WithoutBehaviors(old(State()), bubble)
    {
      protocolKept := protocolKept && !Engaged(State(), bubble);
      gravityItems := gravityItems - {bubble};
      bubbleBehaviors := bubbleBehaviors - {bubble};
      collisionItems := collisionItems - {bubble};
    }

    method AddVelocity(bubble: BubbleId, velocity: Vector)
      modifies this
      ensures State() == Pushed(old(State()), bubble, velocity)
    {
      if bubble in bubbleBehaviors {
        var behavior := bubbleBehaviors[bubble];
        bubbleBehaviors := bubbleBehaviors[bubble := Behavior(AddVectors(behavior.velocity, velocity))];
      }
    }

    /// Asserts that the view has a focused bubble.
    method AddRelatedBehaviors(bubble: BubbleId, viewFocused: Option<BubbleId>)
      requires viewFocused.Some?
      modifies this
      ensures State() == Tied(old(State()), bubble, viewFocused.value)
    {
      relatedAttachments := relatedAttachments[bubble := Attachment(viewFocused.value, AttachmentLength)];
      collisionItems := collisionItems + {bubble};
    }

    /// A bubble without an attachment only gets logged.
    method RemoveRelatedBehaviors(bubble: BubbleId)
      modifies this
      ensures State() == Untied(old(State()), bubble)
    {
      if bubble in relatedAttachments {
        relatedAttachments := relatedAttachments - {bubble};
      }
    }

    /// Asserts that the bubble has an index. The protocol promises the bubble
    /// is not related.
    method AddFocusedBehaviors(bubble: BubbleId, bubbleIndex: Option<Index>, viewCenter: Point)
      requires bubbleIndex.Some?
      modifies this
      ensures State() == Snapped(old(State()), bubble, viewCenter)
    {
      protocolKept := protocolKept && bubble !in relatedAttachments;
      focusedSnap := Some(Snap(bubble, viewCenter));
    }

    method RemoveFocusedBehaviors(bubble: BubbleId)
      modifies this
      ensures State() == Unsnapped(old(State()))
    {
      focusedSnap := None;
    }

    method LayoutChanged(viewFocused: Option<BubbleId>, viewCenter: Point)
      modifies this
      ensures State() == Relaid(old(State()), viewFocused, viewCenter)
    {
      if viewFocused.Some? {
        match focusedSnap
        case Some(snap) => focusedSnap := Some(Snap(snap.item, viewCenter));
        case None =>
      }
    }
  }
}
