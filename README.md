# BubblesView in Dafny

BubblesView is an iOS view. It shows one focused "bubble" (a data-source
index) in the middle, surrounded by the bubbles of the indices the data source
relates to it. Tapping a bubble asks for a new focus. The heart of the library
is the **focus reconciler**: `focus(index:)` and `reloadData()`. They work out
which bubbles to create, remove, keep or promote, and keep these in step:

- the registry (`indexToBubble` and the tap and pan recogniser dictionaries);
- the scene (`focusedBubble`, `currentRelated`, `dragOffsets`);
- the animator's bookkeeping (behaviours, related attachments, the focus snap).

This project models that reconciler in its three revisions. It proves that
every corrected operation keeps the bookkeeping consistent while the
animator's books agree with the view, and that the operations as written,
where they differ, break it. The central invariant
is that the registered indices are exactly the focus plus its related set, the
focus is not related to itself, and one tap and one pan recogniser exist per
bubble on screen.

| Module (file) | What it models |
|---|---|
| `Core` (Core.dfy) | Indices (Swift `Int` range) and bubble ids. A bubble view is a position in an arena of views, holding its `index` or nil once removed. Also the data source, as a value. |
| `FocusSets` (FocusSets.dfy) | The set algebra of `focus`: `toAdd`, `toRemove`, `toKeep`, including the `-2` "no focus" sentinel. |
| `ViewState` (ViewState.dfy) | The registry of the current revision, `addBubble`/`removeBubble`, and the consistency predicate of the whole view. |
| `Animator` (BouncyAnimator.dfy) | `BouncyAnimator`'s dictionaries and snap, as a class over an `AnimatorState` value. It also tracks, as a ghost flag, whether the call-ordering promises of the `BubblesViewAnimator` protocol have been kept. |
| `FocusSteps`, `ReloadSteps` (FocusSteps.dfy, ReloadSteps.dfy) | The steps of `focus` and `reloadData` in the current revision, as pure functions on a snapshot of the view, with the lemmas that each step keeps the books. |
| `Reconciler` (BubblesView.dfy) | The current `BubblesView` class: `focus`, `reloadData`, `addBubble`, `removeBubble`, the tap and pan handlers and `layoutSubviews`. Its `animator` is optional, and every call on it is `animator?.…`. While none is installed, a ghost field (`unheard`) records the books an animator would keep, with one difference: a removed bubble loses its attachment, because nothing holds it any more. The consistency predicate is stated over the installed animator's books, or over `unheard` when there is none. |
| `LegacySteps`, `Legacy` (LegacySteps.dfy, Legacy.dfy) | The older revision, which manages attachments, the snap and the recognisers inline. `BubbleViewController/Classes/BubblesView.swift` and `BubbleViewController/Classes/BubbleViewController.swift` run the same reconciler, so one class models both; the table cites the first file, and the second has the same bodies (`reloadData` at 42-71, `focus` at 83-168, `addBubble` at 289-298, `removeBubble` at 300-306). |
| `Clock` (PositionClock.dfy) | `PositionClock`, the modular counter that places new bubbles on a circle. |
| `KaryTree` (CompleteKaryTree.dfy) | The example `CompleteKaryTree`: size, parent, children, leaves, in-order traversal. |
| `HueSpace` (HueSpace.dfy) | The two tree-shaped example data sources. Each has an inverse in-order mapping, children as related indices and inner nodes as focusable. The older one paints its middle node gray. |
| `ColorNeighborhood` (ColorNeighborhood.dfy) | The colour-wheel example data source: 7 neighbours 3 degrees apart, wrapping at 360. Its first focus is 50 and every hue may be focused. |
| `PairDataSource` (PairDataSource.dfy) | The older example data source over six colours. |
| `Navigation` (Navigation.dfy) | The example view controller's back-navigation stack. |
| `Arith` (Arith.dfy) | Integer facts and truncating division, used by the clock and the colour wheel, and the size of a sequence without repetitions, used by the tree and the example data sources. |

Each operation that changes the view is a method. Its contract says that the
new state is a step function applied to the old state
(`Current() == Refocused(old(Current()), …)`). Lemmas then prove what the
source asserts about that step function: the consistency invariant and the
recogniser and attachment counts. Where a loop iterates over a Swift `Set`,
the method returns the order it took (`added`). The contract holds for every
order.

## Model

| member | source | states |
|---|---|---|
| FocusSets.SentinelHarmlessWhenFocused | Sources/Classes/BubblesView.swift:181-187 | With a focused bubble, or when -2 is not related, `toAdd` as written is `newRelated - currentRelated - {old focus}` |
| FocusSteps.RefocusedAsWrittenLosesSentinel | Sources/Classes/BubblesView.swift:181-187 | From a view with nothing focused, refocusing with the written `toAdd` onto a focus related to -2 leaves -2 related with no bubble, so the view is not consistent |
| FocusSets.SentinelDropsIndex | Sources/Classes/BubblesView.swift:185 | For every new and current related set, with no focus, -2 related to the new focus and -2 not already related: `toAdd` as written loses -2 while the intended set keeps it, and the two differ in nothing else |
| FocusSets.NewRelatedPartition | Sources/Classes/BubblesView.swift:181-201 | The new related set is the disjoint union of `toAdd`, `toKeep` and the demoted old focus (when it is related) |
| FocusSets.CurrentRelatedPartition | Sources/Classes/BubblesView.swift:189-201 | The old related set is the disjoint union of `toRemove`, `toKeep` and the promoted new focus (when it was related) |
| FocusSets.TransitionDisplayed | Sources/Classes/BubblesView.swift:178-255 | Removing `toRemove` and a non-demoted old focus, then adding a created focus and `toAdd`, shows exactly the new focus and its related set; nothing created was already shown |
| FocusSets.SwitchTrajectory | Sources/Classes/BubblesView.swift:192-243 | The sets shown and attached after each step of the first half of `focus`: only a promoted focus stays attached, and the old focus survives the removals |
| FocusSets.BuildTrajectory | Sources/Classes/BubblesView.swift:245-255 | The keepers are on screen and the created indices are not; with the demoted old focus they make up the new related set |
| Core.Enumerate | Sources/Classes/BubblesView.swift:247-254 | Iterating a Swift `Set` visits each element exactly once, in some order |
| ViewState.AddedOk | Sources/Classes/BubblesView.swift:341-359 | `addBubble` on a new view for an unregistered index keeps the registry consistent and registers exactly that index, on that view |
| ViewState.RemovedOk | Sources/Classes/BubblesView.swift:361-368 | `removeBubble` on a live view keeps the registry consistent, forgets exactly its index and kills only that view |
| ViewState.AddRemoveRoundTrip | Sources/Classes/BubblesView.swift:341-368 | Adding a bubble for a new index and removing it again restores the registry, but for the dead view left in the arena |
| ViewState.ViewsOfAlive | Sources/Classes/BubblesView.swift:197 | `toRemove.map{indexToBubble[$0]!}` yields exactly the live views showing those indices |
| ViewState.DroppedOk | Sources/Classes/BubblesView.swift:199 | Removing the views of registered indices in any order keeps the registry consistent and unregisters exactly those indices |
| ViewState.GrownOk | Sources/Classes/BubblesView.swift:247-254 | Creating and adding one bubble per distinct new index keeps the registry consistent |
| ViewState.GrownFresh | Sources/Classes/BubblesView.swift:247-254 | The k-th created index is registered on the k-th fresh view |
| ViewState.RecognizerCounts | Sources/Classes/BubblesView.swift:258-259 | A consistent registry has one tap and one pan recogniser per registered index |
| ViewState.ConsistentCounts | Sources/Classes/BubblesView.swift:258-259 | In a consistent focused view there are `1 + currentRelated.count` tap and pan recognisers |
| ViewState.EmptyConsistent | Sources/Classes/BubblesView.swift:81-98 | The initial empty view is consistent |
| ViewState.DragBeganOk | Sources/Classes/BubblesView.swift:287-299 | Starting to drag a live related bubble (offset recorded, attachment then behaviours removed) keeps the view consistent |
| ViewState.DragEndedOk | Sources/Classes/BubblesView.swift:301-309 | Ending a drag (re-attached, new behaviour, pushed, offset dropped) keeps the view consistent |
| FocusSteps.DisengagedOk | Sources/Classes/BubblesView.swift:192-212 | After the removals, the keeper detachment and the unsnap, the removed indices are gone, nothing is attached but a related new focus, and there is no snap |
| FocusSteps.EngagedOk | Sources/Classes/BubblesView.swift:214-233 | A related new focus keeps its bubble and is detached; any other gets a fresh bubble. Either way it is registered, snapped and focused |
| FocusSteps.DemotedOk | Sources/Classes/BubblesView.swift:235-243 | The old focus stays alive and attached exactly when related to the new focus, and is removed otherwise |
| FocusSteps.SwitchedOk | Sources/Classes/BubblesView.swift:192-243 | The first half of `focus` leaves the registry, the snap and the shown set as stated, and the old focus alive exactly when related to the new one |
| FocusSteps.AttachedOk | Sources/Classes/BubblesView.swift:245-259 | Re-attaching the keepers and creating the new related bubbles yields a consistent view focused on the index, with `newRelated`; every earlier index keeps its bubble |
| FocusSteps.RefocusedOk | Sources/Classes/BubblesView.swift:178-259 | `focus` past its guard leaves a consistent view focused on the index, with `currentRelated == newRelated` and nothing dragged |
| FocusSteps.RefocusedBubbles | Sources/Classes/BubblesView.swift:216-254 | A related new focus reuses its bubble and any other gets a fresh one; keepers keep their bubbles; the old focus survives iff related; one view is created per new index |
| FocusSteps.CreateOk | Sources/Classes/BubblesView.swift:224-230 | A fresh focus view is configured, added and snapped, and its index is shown |
| FocusSteps.PromoteOk | Sources/Classes/BubblesView.swift:216-222 | A related bubble is detached before it is snapped as the focus |
| FocusSteps.GrowOk | Sources/Classes/BubblesView.swift:247-254 | The new related bubbles are shown and attached to the focus, and earlier registrations stay |
| ReloadSteps.ClearedOk | Sources/Classes/BubblesView.swift:127-136 | The corrected removals of `reloadData` empty the screen: nothing registered, alive or attached, no focus and no snap |
| ReloadSteps.ResyncedOk | Sources/Classes/BubblesView.swift:122-156 | A reload works from any registry and scene in shape with an empty, newly installed animator, in both versions. The result is consistent and focused on the data source's focus, with its related set and nothing dragged |
| ReloadSteps.RebuiltOk | Sources/Classes/BubblesView.swift:138-155 | From an empty screen, a fresh focus plus one fresh bubble per related index gives a consistent view |
| ReloadSteps.ReloadedOk | Sources/Classes/BubblesView.swift:122-156 | The corrected `reloadData` leaves a consistent view focused on `focusedBubble()` on a fresh bubble, with `relatedForBubble` of it and nothing dragged |
| ReloadSteps.ReloadedViews | Sources/Classes/BubblesView.swift:127-155 | After `reloadData` (either version) the live views are exactly the ones it created |
| ReloadSteps.ReloadedAsWrittenAgrees | Sources/Classes/BubblesView.swift:134-136 | With nothing related, the version as written and the corrected one coincide |
| ReloadSteps.ReloadedAsWrittenBreaksProtocol | Sources/Classes/BubblesView.swift:134-136 | As written, with related bubbles on screen, `reloadData` calls `removeBehaviors` on attached bubbles (protocol broken) and their attachments outlive them |
| ReloadSteps.AsWrittenDropped | Sources/Classes/BubblesViewAnimator.swift:44-50 | Removing the related bubbles without `removeRelatedBehaviors` breaks the protocol, and each removed bubble is still attached |
| Reconciler.ClampBounds | Sources/Classes/BubblesView.swift:327-331 | The `max` then `min` bound keeps a dragged coordinate inside the view when the view fits the bubble, leaves an inside coordinate alone, and lets the upper bound win otherwise |
| Reconciler.BubblesView.constructor | Sources/Classes/BubblesView.swift:70-108 | A new view is empty and consistent. It has no animator, allows dragging, has user interaction on and has a fresh clock |
| Reconciler.BubblesView.SetAnimator | Sources/Classes/BubblesView.swift:73-76 | Setting `animator` changes nothing else. Removing the animator keeps the view as valid as it was. A newly installed animator that holds nothing makes the view reloadable, as the documentation comment asks |
| Reconciler.BubblesView.AnimatorAddBehaviors | Sources/Classes/BubblesView.swift:356 | `animator?.addBehaviors`: the bubble gets its behaviours, or the call is lost while there is no animator; registry, scene and settings are untouched |
| Reconciler.BubblesView.AnimatorRemoveBehaviors | Sources/Classes/BubblesView.swift:364 | `animator?.removeBehaviors`, the same way. With no animator the bubble's attachment goes with it (`Animator.Discarded`) |
| Animator.UnheardRemovalsKeepProtocol | Sources/Classes/BubblesView.swift:364 | Removals that no animator hears never break the protocol unless they remove the snapped bubble, and they leave no attachment to a removed bubble |
| Reconciler.BubblesView.AnimatorAddVelocity | Sources/Classes/BubblesView.swift:308 | `animator?.addVelocity`, the same way |
| Reconciler.BubblesView.AnimatorAddRelatedBehaviors | Sources/Classes/BubblesView.swift:154 | `animator?.addRelatedBehaviors`: the bubble is attached to the focused bubble, which must exist |
| Reconciler.BubblesView.AnimatorRemoveRelatedBehaviors | Sources/Classes/BubblesView.swift:198 | `animator?.removeRelatedBehaviors`, the same way |
| Reconciler.BubblesView.AnimatorAddFocusedBehaviors | Sources/Classes/BubblesView.swift:222 | `animator?.addFocusedBehaviors`: the bubble, which must have an index, is snapped to the view's centre |
| Reconciler.BubblesView.AnimatorRemoveFocusedBehaviors | Sources/Classes/BubblesView.swift:129 | `animator?.removeFocusedBehaviors`: the snap goes |
| Reconciler.BubblesView.AnimatorLayoutChanged | Sources/Classes/BubblesView.swift:115 | `animator?.layoutChanged`: the snap follows the view's centre |
| Reconciler.BubblesView.RecognizerCounts | Sources/Classes/BubblesView.swift:258-259 | In a valid focused view, `tapRecognizers.count == panRecognizers.count == 1 + currentRelated.count` |
| Reconciler.BubblesView.ConfigureBubble | Sources/Classes/BubblesView.swift:225-226 | `configureBubble` then `bubble.index = index` makes a fresh view in the arena and changes nothing else |
| Reconciler.BubblesView.AddBubble | Sources/Classes/BubblesView.swift:341-359 | The bubble, which must have an index, gets both recognisers, is registered under its index and gets the animator's behaviours |
| Reconciler.BubblesView.RemoveBubble | Sources/Classes/BubblesView.swift:361-368 | Both recognisers, the behaviours and the registration go, and the index is niled; the scene is untouched. Without an animator its attachment goes too |
| Reconciler.BubblesView.UntieAll | Sources/Classes/BubblesView.swift:198 | `removeRelatedBehaviors` on every view of a set |
| Reconciler.BubblesView.TieAll | Sources/Classes/BubblesView.swift:245 | `addRelatedBehaviors` on every view of a set, each attached to the focused bubble |
| Reconciler.BubblesView.RemoveAll | Sources/Classes/BubblesView.swift:199 | `removeBubble` on every view of a set, all of which must be alive; the animator's books are `Animator.DiscardedAll` of the set |
| Reconciler.BubblesView.AddRelatedBubble | Sources/Classes/BubblesView.swift:149-155 | One related bubble: configured, placed by one clock step, added, then attached to the focus |
| Reconciler.BubblesView.AddRelatedBubbles | Sources/Classes/BubblesView.swift:247-254 | One related bubble per index of `toAdd`, each index exactly once, with one clock step each |
| Reconciler.BubblesView.Focus | Sources/Classes/BubblesView.swift:165-260 | Settings, including `userInteractionEnabled`, are as before on every exit. A focus already in place changes nothing. Otherwise the view is the refocused view, still consistent and focused on the index. Tap and pan counts are `1 + currentRelated.count` |
| Reconciler.BubblesView.SetUserInteraction | Sources/Classes/BubblesView.swift:168-172 | Turning user interaction off or back on changes nothing the reconciler keeps, and keeps the view exactly as valid as before |
| Reconciler.BubblesView.Refocus | Sources/Classes/BubblesView.swift:178-259 | Past the guard, the view moves to the new focus with `currentRelated` from the data source, created in the order `added` (exactly `toAdd`), and stays consistent |
| Reconciler.BubblesView.RefocusAsWritten | Sources/Classes/BubblesView.swift:178-259 | With `toAdd` as written (minus `focusedBubble?.index ?? -2`). When a bubble was focused, or -2 is not related, the result is consistent and focused on the index. Otherwise -2 is related but has no bubble, and the view is not consistent |
| Reconciler.BubblesView.SwitchFocus | Sources/Classes/BubblesView.swift:192-243 | The first half of `focus`: the removals, the unsnap, the new focus and the old focus's fate |
| Reconciler.BubblesView.Disengage | Sources/Classes/BubblesView.swift:197-212 | The views to remove are detached and removed, the keepers detached, and the old focus unsnapped and unset |
| Reconciler.BubblesView.Engage | Sources/Classes/BubblesView.swift:214-231 | A related focus target is detached and snapped on its own bubble; any other gets a fresh bubble, added and snapped |
| Reconciler.BubblesView.CreateFocus | Sources/Classes/BubblesView.swift:224-230 | A fresh focus view is configured, added at the centre, made the focus and snapped |
| Reconciler.BubblesView.Demote | Sources/Classes/BubblesView.swift:235-243 | The old focus is attached when it is related to the new one and removed otherwise; it must be attached to nothing beforehand, which `SwitchFocus` shows |
| Reconciler.BubblesView.AttachRelated | Sources/Classes/BubblesView.swift:245-255 | The keepers are attached, a bubble is created and attached per index of `toAdd`, and `currentRelated` becomes the new set |
| Reconciler.BubblesView.ReloadData | Sources/Classes/BubblesView.swift:122-156 | Accepts a view with nothing dragged whose animator is either in step with it or newly installed and empty. This covers the reload after `bubblesView.animator = animator` in Example/BubblesView/ViewController.swift:33-40. Without a data source nothing changes. Otherwise the view is rebuilt on the data source's focus and related set, with related bubbles detached first. It ends consistent and focused on `focusedBubble()` |
| Reconciler.BubblesView.ReloadDataAsWritten | Sources/Classes/BubblesView.swift:122-156 | The method as written, doing the same rebuild, which without an animator is the corrected one. If an animator is installed, the view was consistent and bubbles were related, the animator protocol is broken. With a newly installed, empty animator, or with none and a consistent view, the rebuilt view is consistent and focused on the data source's focus |
| Reconciler.BubblesView.Reload | Sources/Classes/BubblesView.swift:127-155 | The body past the guard, in both versions. It accepts any registry and scene in shape, whatever the animator holds. The view becomes `Reloaded(old, dataSource, added, untie)`, where the related bubbles are detached when `untie` holds or no animator is installed, with one clock step per related index. It needs the focus to be attached to nothing |
| Reconciler.BubblesView.DropFocus | Sources/Classes/BubblesView.swift:128-132 | The old focus, if any, is unsnapped, removed and unset; it must be attached to nothing |
| Reconciler.BubblesView.DropRelated | Sources/Classes/BubblesView.swift:135-136 | Every registered related view is removed, detached first in the corrected version and whenever no animator is installed |
| Reconciler.BubblesView.Rebuild | Sources/Classes/BubblesView.swift:139-155 | A fresh focus for `focusedBubble()` at the centre, then one fresh attached bubble per index of its related set, which becomes `currentRelated` |
| Reconciler.BubblesView.DidTapBubble | Sources/Classes/BubblesView.swift:263-274 | The delegate hears of a tap iff nothing is dragged and the bubble still has an index; that index is on screen and registered to the tapped bubble |
| Reconciler.BubblesView.DidPanBubble | Sources/Classes/BubblesView.swift:276-338 | A pan on the focus, or with dragging off, changes nothing. `Began` records the offset and frees the bubble. `Ended`/`Cancelled` re-attach it, push it with twice the velocity and drop the offset. `Changed` yields the clamped centre. The view stays consistent |
| Reconciler.BubblesView.EndDrag | Sources/Classes/BubblesView.swift:301-309 | The `.Cancelled, .Ended` branch: re-attached, new behaviour, pushed, offset dropped |
| Reconciler.BubblesView.Release | Sources/Classes/BubblesView.swift:302-308 | `addRelatedBehaviors`, `addBehaviors`, then `addVelocity` with the doubled velocity |
| Reconciler.BubblesView.LayoutSubviews | Sources/Classes/BubblesView.swift:114-116 | The animator moves the snap of the focus to the current centre; the view stays consistent |
| Animator.BouncyAnimator.constructor | Sources/Classes/BouncyAnimator.swift:63-64 | A new animator manages nothing |
| Animator.BouncyAnimator.AddBehaviors | Sources/Classes/BouncyAnimator.swift:77-83 | The bubble gets a fresh behaviour and joins gravity and collision |
| Animator.BouncyAnimator.RemoveBehaviors | Sources/Classes/BouncyAnimator.swift:85-92 | The bubble leaves the behaviours, gravity and collision (a missing entry is tolerated); the protocol is broken if it was still attached or snapped |
| Animator.BouncyAnimator.AddVelocity | Sources/Classes/BouncyAnimator.swift:94-98 | Only a bubble with a behaviour is pushed; otherwise nothing changes |
| Animator.BouncyAnimator.AddRelatedBehaviors | Sources/Classes/BouncyAnimator.swift:103-110 | Requires a focused bubble; stores one attachment of length 120 to it, keyed by the bubble, and adds the bubble to collision |
| Animator.BouncyAnimator.RemoveRelatedBehaviors | Sources/Classes/BouncyAnimator.swift:112-118 | Drops the bubble's attachment; without one nothing changes |
| Animator.BouncyAnimator.AddFocusedBehaviors | Sources/Classes/BouncyAnimator.swift:122-131 | Requires an index; the snap holds the bubble at the view's centre; the protocol is broken if the bubble is still related |
| Animator.BouncyAnimator.RemoveFocusedBehaviors | Sources/Classes/BouncyAnimator.swift:133-140 | There is no snap afterwards |
| Animator.BouncyAnimator.LayoutChanged | Sources/Classes/BouncyAnimator.swift:167-172 | The snap point moves to the centre only while the view has a focus |
| Animator.OrderlyRemoval | Sources/Classes/BubblesViewAnimator.swift:44-50 | Removing related and focused behaviours before `removeBehaviors` keeps the protocol; skipping either breaks it whenever that behaviour was in place |
| Animator.ProtocolNeverRestored | Sources/Classes/BubblesViewAnimator.swift:44-74 | No animator call restores a broken protocol |
| Animator.TieRoundTrip | Sources/Classes/BouncyAnimator.swift:103-118 | Attaching and detaching a bubble that was not attached restores the attachments; the attachment is to the focused bubble |
| Animator.BehaviorsRoundTrip | Sources/Classes/BouncyAnimator.swift:77-92 | Adding and removing the behaviours of an unmanaged bubble restores the state |
| Animator.PushesAdd | Sources/Classes/BouncyAnimator.swift:94-98 | Two pushes are one push by the sum of the velocities; pushes never add entries |
| LegacySteps.EmptyOk | BubbleViewController/Classes/BubblesView.swift:20-40 | The empty view keeps the books |
| LegacySteps.AttachmentCount | BubbleViewController/Classes/BubblesView.swift:180 | `relatedAttachments.count == currentRelated.count + stale.count`, so the closing assertion of `focus` holds iff no attachment was left by a removed bubble |
| LegacySteps.RefocusedOk | BubbleViewController/Classes/BubblesView.swift:96-181 | `focus` past its guard keeps the books: focused on the index, with its related set shown, panned and attached |
| LegacySteps.DemotedTapEntry | BubbleViewController/Classes/BubblesView.swift:158-167 | An old focus related to the new one stays on screen as a related bubble, and keeps its tap entry iff `disengageFocused` keeps it, so as written it has none |
| LegacySteps.ReloadedOk | BubbleViewController/Classes/BubblesView.swift:58-87 | `reloadData` focuses `focusedBubble()` with its related set and keeps the books; as written the removed related views' attachments become stale |
| LegacySteps.ReloadedAsWrittenStale | BubbleViewController/Classes/BubblesView.swift:68-70 | As written, with related bubbles on screen, there are more attachments than related indices afterwards |
| LegacySteps.StaleBreaksFocusCount | BubbleViewController/Classes/BubblesView.swift:180 | With stale attachments, the assertion closing the next `focus` fails |
| LegacySteps.FocusCountHolds | BubbleViewController/Classes/BubblesView.swift:180 | Without stale attachments the assertion closing `focus` holds |
| LegacySteps.LaidOutOk | BubbleViewController/Classes/BubblesView.swift:47-53 | `layoutSubviews` changes nothing but, as written, drops the focus's tap entry |
| LegacySteps.ReleasableFacts | BubbleViewController/Classes/BubblesView.swift:117-131 | The force-unwraps of the first steps of `focus` succeed on a consistent view |
| LegacySteps.ReloadableFacts | BubbleViewController/Classes/BubblesView.swift:63-70 | The force-unwraps of `reloadData` succeed on a consistent view |
| Legacy.LegacyBubblesView.constructor | BubbleViewController/Classes/BubblesView.swift:20-40 | A new view is empty and consistent, with no data source |
| Legacy.LegacyBubblesView.ConfigureBubble | BubbleViewController/Classes/BubblesView.swift:73-74 | A fresh view for the index in the arena |
| Legacy.LegacyBubblesView.AddBubble | BubbleViewController/Classes/BubblesView.swift:310-319 | The bubble's index must exist and must not be -1, as asserted. The bubble gets a tap recogniser, is registered under its index and gets a behaviour |
| Legacy.LegacyBubblesView.RemoveBubble | BubbleViewController/Classes/BubblesView.swift:321-327 | The tap recogniser, the (force-unwrapped) behaviour and the registration go; the index is niled |
| Legacy.LegacyBubblesView.ConfigureFocused | BubbleViewController/Classes/BubblesView.swift:184-192 | Sets the snap on the bubble and makes it the focus |
| Legacy.LegacyBubblesView.DisengageFocused | BubbleViewController/Classes/BubblesView.swift:194-205 | Clears the snap and the focus; as written also drops the bubble's tap entry |
| Legacy.LegacyBubblesView.ConfigureRelated | BubbleViewController/Classes/BubblesView.swift:209-215 | Adds exactly that bubble's pan entry |
| Legacy.LegacyBubblesView.DisengageRelated | BubbleViewController/Classes/BubblesView.swift:217-220 | Removes exactly that bubble's pan entry, which must exist |
| Legacy.LegacyBubblesView.AddAttachment | BubbleViewController/Classes/BubblesView.swift:236-243 | Requires a focused bubble; adds one attachment to it |
| Legacy.LegacyBubblesView.RemoveAttachment | BubbleViewController/Classes/BubblesView.swift:245-248 | Removes the attachment, which must exist |
| Legacy.LegacyBubblesView.DisengageRelatedAll | BubbleViewController/Classes/BubblesView.swift:118 | `disengageRelated` on each view of a set |
| Legacy.LegacyBubblesView.RemoveAttachmentAll | BubbleViewController/Classes/BubblesView.swift:119 | `removeAttachment` on each view of a set |
| Legacy.LegacyBubblesView.RemoveBubbleAll | BubbleViewController/Classes/BubblesView.swift:120 | `removeBubble` on each view of a set |
| Legacy.LegacyBubblesView.AddAttachmentAll | BubbleViewController/Classes/BubblesView.swift:168 | `addAttachment` on each view of a set |
| Legacy.LegacyBubblesView.AddRelatedBubble | BubbleViewController/Classes/BubblesView.swift:80-86 | One related bubble: configured, added, panned and attached to the focus |
| Legacy.LegacyBubblesView.AddRelatedBubbles | BubbleViewController/Classes/BubblesView.swift:170-177 | One related bubble per index of `toAdd`, each exactly once |
| Legacy.LegacyBubblesView.Focus | BubbleViewController/Classes/BubblesView.swift:96-181 | Corrected version. No index it creates a bubble for may be -1 (the assertion in `addBubble`). A focus in place changes nothing. Otherwise the view is refocused on the index with the data source's related set, consistent. `relatedAttachments.count == currentRelated.count` iff no stale attachment exists |
| Legacy.LegacyBubblesView.FocusAsWritten | BubbleViewController/Classes/BubblesView.swift:96-181 | The same as written: a demoted old focus is on screen without a tap entry |
| Legacy.LegacyBubblesView.Refocus | BubbleViewController/Classes/BubblesView.swift:101-178 | Past the guard: the refocused view, consistent, focused on the index, `currentRelated == newRelated` |
| Legacy.LegacyBubblesView.SwitchFocus | BubbleViewController/Classes/BubblesView.swift:117-167 | The first half of `focus`, up to the old focus |
| Legacy.LegacyBubblesView.Release | BubbleViewController/Classes/BubblesView.swift:117-135 | The removed views lose pan, attachment and place; keepers are detached; the old focus is disengaged |
| Legacy.LegacyBubblesView.Engage | BubbleViewController/Classes/BubblesView.swift:137-156 | A related target loses pan and attachment and is snapped; any other gets a fresh view, added and snapped |
| Legacy.LegacyBubblesView.Place | BubbleViewController/Classes/BubblesView.swift:158-167 | The old focus is panned and attached when related to the new one, removed otherwise |
| Legacy.LegacyBubblesView.ReloadData | BubbleViewController/Classes/BubblesView.swift:58-87 | Corrected version. Neither the data source's focus nor its related indices may be -1 (the assertion in `addBubble`). Without a data source nothing changes. Otherwise the view is rebuilt on the data source's focus and related set, consistent, with no new stale attachment |
| Legacy.LegacyBubblesView.ReloadDataAsWritten | BubbleViewController/Classes/BubblesView.swift:58-87 | As written: when bubbles were related, afterwards there are more attachments than related indices |
| Legacy.LegacyBubblesView.Reload | BubbleViewController/Classes/BubblesView.swift:63-86 | The body past the guard in both versions, and which attachments become stale |
| Legacy.LegacyBubblesView.DropFocus | BubbleViewController/Classes/BubblesView.swift:63-66 | The old focus is disengaged and removed |
| Legacy.LegacyBubblesView.DropRelated | BubbleViewController/Classes/BubblesView.swift:68-70 | The related views lose their pans and are removed; detached first in the corrected version |
| Legacy.LegacyBubblesView.Rebuild | BubbleViewController/Classes/BubblesView.swift:72-86 | A fresh snapped focus for `focusedBubble()` and a fresh attached bubble per related index |
| Legacy.LegacyBubblesView.LayoutSubviews | BubbleViewController/Classes/BubblesView.swift:47-53 | Corrected version: nothing recorded changes |
| Legacy.LegacyBubblesView.LayoutSubviewsAsWritten | BubbleViewController/Classes/BubblesView.swift:47-53 | As written: the focus loses its tap entry |
| Legacy.LegacyBubblesView.Relayout | BubbleViewController/Classes/BubblesView.swift:48-52 | The focus, if any, is disengaged and configured again |
| Arith.TruncRem | Sources/Classes/PositionClock.swift:46 | Swift's `%`: the remainder has the dividend's sign and is smaller than the divisor in magnitude |
| Clock.PositionClock.constructor | Sources/Classes/PositionClock.swift:24-31 | The counter starts at 0 with the given divisions and radius |
| Clock.PositionClock.GenerateVector | Sources/Classes/PositionClock.swift:50-53 | The vector uses the stored radius, whatever magnitude is passed |
| Clock.PositionClock.Advance | Sources/Classes/PositionClock.swift:41-47 | The point uses the counter before it is incremented; the k-th call uses step `k mod divisions`; the counter stays reduced |
| Clock.PositionClock.Periodic | Sources/Classes/PositionClock.swift:41-47 | Call `k + divisions` returns the same point as call `k` |
| Clock.PositionClock.FirstRoundDistinct | Sources/Classes/PositionClock.swift:41-47 | The first `divisions` calls use pairwise different angle steps |
| Arith.ModSucc | Sources/Classes/PositionClock.swift:45-46 | Incrementing a reduced counter and reducing again equals reducing the incremented count |
| KaryTree.SizeIsGeometricSum | Example/BubblesView/CompleteKaryTree.swift:60-62 | `(k^(h+1) - 1) / (k - 1)` is exact and equals `1 + k + … + k^h` |
| KaryTree.CompleteKaryTree.constructor | Example/BubblesView/CompleteKaryTree.swift:57-65 | Size is the geometric sum, the root is 0, storage is `size` zeros |
| KaryTree.CompleteKaryTree.Children | Example/BubblesView/CompleteKaryTree.swift:71-75 | `[k·i+1, …, k·i+k]`: length `k`, strictly increasing |
| KaryTree.CompleteKaryTree.ParentOfChild | Example/BubblesView/CompleteKaryTree.swift:67-69 | `parent(k·i + j) == i` for `1 ≤ j ≤ k` |
| KaryTree.CompleteKaryTree.LeafIffFirstChildOutside | Example/BubblesView/CompleteKaryTree.swift:77-79 | `isLeaf(i) ⇔ k·i + 1 ≥ size` |
| KaryTree.CompleteKaryTree.ChildInTree | Example/BubblesView/CompleteKaryTree.swift:71-79 | The children of an inner node lie after it and inside the tree |
| KaryTree.CompleteKaryTree.TraversalFacts | Example/BubblesView/CompleteKaryTree.swift:88-101 | The traversal below a node lists each node of its subtree exactly once and nothing else |
| KaryTree.CompleteKaryTree.InOrder | Example/BubblesView/CompleteKaryTree.swift:88-101 | Appends a leaf alone, or the first `k/2` subtrees, the node, then the rest |
| KaryTree.CompleteKaryTree.GenerateInOrderTraversal | Example/BubblesView/CompleteKaryTree.swift:81-86 | The traversal from the root lists every node exactly once, so it has `size` entries, as asserted |
| HueSpace.InverseMapping | Example/BubblesView/HueSpaceDataSource.swift:34-39 | `inOrderMapping[inOrder[i]] == i` for every position; entries left at -1 are exactly the indices not in the traversal |
| HueSpace.HueSpaceDataSource.constructor | Example/BubblesView/HueSpaceDataSource.swift:31-41 | The tree, the inverse of its in-order traversal, and the root as the first focus |
| HueSpace.HueSpaceDataSource.RelatedForBubble | Example/BubblesView/HueSpaceDataSource.swift:48-54 | Nothing for a leaf, otherwise the set of the children |
| HueSpace.HueSpaceDataSource.RelatedAreChildren | Example/BubblesView/HueSpaceDataSource.swift:48-54 | A node is related to exactly the nodes whose parent it is, so never to itself |
| HueSpace.HueSpaceDataSource.AllowFocusIffRelated | Example/BubblesView/HueSpaceDataSource.swift:84-86 | `shouldAllowFocus(i) ⇔ !isLeaf(i)`, which holds exactly when `i` has related nodes |
| HueSpace.HueSpaceDataSource.OneGrayNode | Example/BubblesView/BubblesViewHueSpaceDataSource.swift:44-60 | Exactly the node at in-order position `size / 2` is gray, and no two nodes share a colour |
| ColorNeighborhood.WrappedIsMod | Example/BubblesView/ColorNeigborhoodDataSource.swift:42-43 | The truncating `%` plus 360 when negative is the Euclidean remainder |
| ColorNeighborhood.RelatedForBubble | Example/BubblesView/ColorNeigborhoodDataSource.swift:38-50 | The loop inserts exactly the wrapped neighbours at steps −4…3, skipping 0 |
| ColorNeighborhood.NeighboursFacts | Example/BubblesView/ColorNeigborhoodDataSource.swift:38-50 | Exactly 7 hues, all in `[0, 360)`, never the queried index |
| PairDataSource.RelatedForBubble | Example/BubbleViewController/DataSource.swift:19-24 | Requires `0 ≤ b ≤ 5`. For `b > 0` the result is `{0..5} − {b−1, b}`; for `b = 0` it is `{2,3,4,5}`. It always has 4 elements, never contains `b`, and stays within the colours |
| PairDataSource.StruckTwice | Example/BubbleViewController/DataSource.swift:20-23 | Two `removeAtIndex` calls strike off the bubble and its predecessor (bubble 1 for 0) |
| Navigation.RequestMatchesFocus | Example/BubblesView/ViewController.swift:59-67 | `focus` is asked for exactly the new `focused`, and only when the state changed |
| Navigation.ForwardThenBack | Example/BubblesView/ViewController.swift:59-67 | Going forward to `b` and tapping `b` again restores `focused` and `path` |
| Navigation.PathStep | Example/BubblesView/ViewController.swift:59-67 | A tap pops one entry, pushes one, or changes nothing |
| Navigation.SelectKeepsSteps | Example/BubblesView/ViewController.swift:59-67 | Every step on the path moves to another bubble, so going back always changes the focus |
| Navigation.ViewController.constructor | Example/BubblesView/ViewController.swift:25-26 | The data source starts at the tree root with an empty path |
| Navigation.ViewController.DidSelectBubble | Example/BubblesView/ViewController.swift:55-68 | A bubble that may not be focused is ignored. Tapping the focus with a non-empty path pops the path. Any other bubble pushes the old focus. The request passed to `focus` is the new `focused` |

## Left out

- UIKit rendering is not modelled: frames, transforms, `addSubview`, `bringSubviewToFront`, and the grow and remove animations in `BubblesViewAnimator`'s extension and the older `BubblesView`. They change nothing the reconciler reads.
- The physics engine is not modelled: `UIDynamicAnimator`, the snap, attachment and collision behaviours, and `BubbleBehavior`'s settings. Only the dictionaries and sets the animator keeps about them are.
- CoreMotion gravity updates and the main-queue hop in `BouncyAnimator` are left out. They are sensor I/O on another thread. The gravity item set is kept.
- `CGFloat` is modelled as exact reals and `Int` as unbounded integers (indices are limited to the 64-bit range). Overflow is not modelled.
- Clock.PositionClock.Advance: the point is a centre plus a polar vector (radius, step, divisions), not `cos`/`sin` of `step · 2π / divisions`. Trigonometry is not modelled, so the test that each of the 4 unit points has `|x + y|` within `[0.99, 1.01]` is not stated.
- KaryTree.CompleteKaryTree.constructor: requires at least two children per node and a non-negative height. Swift's `init` also builds a tree with no children (size 1) or with height -1 (size 0). Those trap only later, in `isLeaf`'s `1...numChildren` range and in the traversal's assertion. With one child the size formula divides by `k - 1 = 0`, and the conversion to `Int` traps. The one tree the examples build is `HueSpaceDataSource(levels: 3, divisions: 7)`.
- KaryTree.CompleteKaryTree.constructor: the size is computed on exact integers. The `Float` power and division in the source, and their rounding for large trees, are not modelled.
- The data source is modelled as a value (its focused index and a total related-set function), not as a protocol object. `configureBubble` is modelled only as the fresh view it returns. The colours and labels of `configureBubble` are not modelled, apart from the older hue-space example's gray branch and the six-colour bound in `PairDataSource.ColorOf`. The colours and labels are floating point and come from the HSLuv library.
- Reconciler.BubblesView.AddRelatedBubbles: the source first configures every new view, then adds each one, then attaches each one. The model does all three steps per index, one index at a time. The final state is the same, but the intermediate states differ.
- Legacy.LegacyBubblesView.AddRelatedBubbles: the same merge of the three passes over `addViews`.
- Reconciler.BubblesView.Focus: requires that nothing is being dragged. The source does not demand this, but a drag changes which bubbles are attached, and the bookkeeping lemmas assume a view at rest.
- Reconciler.BubblesView.Focus: uses the intended `toAdd`, which subtracts nothing when nothing is focused. The written `?? -2` version is Reconciler.BubblesView.RefocusAsWritten, and the two agree whenever a bubble is focused or -2 is not related.
- Reconciler.BubblesView.Refocus: uses the intended `toAdd`, as Focus does.
- Reconciler.BubblesView.Focus: requires the animator's bookkeeping to agree with the view. After a different animator is installed, the `reloadData` that the documentation asks for must come first.
- Reconciler.BubblesView.ReloadData: requires that nothing is dragged. It also requires that the animator is in step with the view, or newly installed and empty. A reload after installing an animator that already holds other bubbles is not covered.
- Reconciler.BubblesView.ReloadData: requires that the data source's focus is not related to itself, which the source does not check in `reloadData`. Without that, the rebuild registers two bubbles for one index.
- Reconciler.BubblesView.DidPanBubble: requires that a bubble being moved has a recorded offset, and that a bubble is focused when a drag ends. The source force-unwraps `dragOffsets[target]!` and `focusedBubble!` there, and would trap otherwise.
- Legacy.LegacyBubblesView.Focus: uses the intended `toAdd`. The `?? -2` slip at BubbleViewController/Classes/BubblesView.swift:108 is the same as the current revision's, and is modelled only there (Reconciler.BubblesView.RefocusAsWritten).
- Legacy.LegacyBubblesView.FocusAsWritten: is "as written" only for the tap entry of `disengageFocused`. It uses the intended `toAdd`, as Focus does.
- Legacy.LegacyBubblesView.Refocus: uses the intended `toAdd`, as Focus does.
- Legacy.LegacyBubblesView.ReloadData: requires the same self-relation condition.
- Clock.PositionClock.Advance: requires `divisions != 0`, where the source would trap on `%` by zero. The view always builds its clock with 7 divisions (Sources/Classes/BubblesView.swift:91), and the tests with 10 and 4.
- Clock.PositionClock.Periodic: requires `divisions != 0`, for the same reason as Advance.
- Clock.PositionClock.FirstRoundDistinct: requires `divisions != 0`, for the same reason as Advance.
- Reconciler.BubblesView.DidTapBubble: the delegate call is modelled as the returned index.
- Navigation.ViewController.DidSelectBubble: the call to `bubblesView.focus` is modelled as the returned request.
- The tap and pan recogniser objects are modelled by dictionary membership only. Gesture delivery is not modelled.
- The legacy tap and pan handlers are left out (`BubbleViewController/Classes/BubbleViewController.swift:233-285` and their copy in the older `BubblesView`). The current revision's handlers are modelled.
- `BubbleViewController.viewWillLayoutSubviews` is empty and has no model.
- Source example files with two classes of one name: `Example/BubblesView/ColorNeigborhoodDataSource.swift` declares a class named `BubblesViewHueSpaceDataSource`, as does `Example/BubblesView/BubblesViewHueSpaceDataSource.swift`. The navigation model uses the tree-shaped one, whose `init(levels:divisions:)` honours its arguments and whose `shouldAllowFocus` rejects leaves.
- `HueSpaceDataSource.configureBubble`'s white root, hue offset and label are floating point and not modelled.
- The view-controller files (`Sources/Classes/BubblesViewController.swift`, `BubbleViewController/Classes/BubblesViewController.swift`) and the `BubbleView` classes are layout glue with no logic. They are not part of this model.

## Findings

| source | as written | input that shows it | evidently intended | confidence | as-written member | corrected member |
|---|---|---|---|---|---|---|
| Sources/Classes/BubblesView.swift:134-136 | `reloadData` removes the related bubbles with `removeBubble` only, so `removeBehaviors` runs on bubbles that are still attached. This breaks the promise at `Sources/Classes/BubblesViewAnimator.swift:45-46`, and the attachments outlive their bubbles | any `reloadData` with an animator installed while a bubble is related, e.g. a second `reloadData` after one whose focus had a related index | call `removeRelatedBehaviors` on each related bubble before removing it | high; not executed | Reconciler.BubblesView.ReloadDataAsWritten | Reconciler.BubblesView.ReloadData |
| BubbleViewController/Classes/BubblesView.swift:68-70 | `reloadData` never calls `removeAttachment`, so the removed related bubbles' attachments stay in `relatedAttachments`. Then the assertion at line 180 fails on the next `focus` | `reloadData` with related bubbles on screen (the second of two), then `focus` on another index: `relatedAttachments.count > currentRelated.count` | call `removeAttachment` on each related bubble before removing it | high; not executed | LegacySteps.StaleBreaksFocusCount | LegacySteps.FocusCountHolds |
| BubbleViewController/Classes/BubbleViewController.swift:52-54 | the same missing `removeAttachment` in the view-controller copy, breaking the assertion at line 167 | as above | as above | high; not executed | Legacy.LegacyBubblesView.ReloadDataAsWritten | Legacy.LegacyBubblesView.ReloadData |
| BubbleViewController/Classes/BubblesView.swift:196 | `disengageFocused` drops the focus's tap recogniser entry. When the old focus is demoted to a related bubble (lines 161-162), nothing restores it | focus `a`, then focus `b` with `a` related to `b`: `a` is on screen as a related bubble with no tap entry | keep the tap entry; only the snap and the focus go | medium; not executed | Legacy.LegacyBubblesView.FocusAsWritten | Legacy.LegacyBubblesView.Focus |
| BubbleViewController/Classes/BubblesView.swift:47-53 | `layoutSubviews` calls `disengageFocused` and so drops the focus's own tap entry on every layout pass | any layout pass while a bubble is focused | snap the focus to the new centre and keep its tap entry | medium; not executed | Legacy.LegacyBubblesView.LayoutSubviewsAsWritten | Legacy.LegacyBubblesView.LayoutSubviews |
| Sources/Classes/BubblesView.swift:185 | with no focused bubble, `focus` removes the sentinel `-2` from `toAdd`, and `-2` is a valid index | `focus(0)` before any `reloadData`, on a data source where `-2` is related to 0: `-2` lands in `currentRelated` with no bubble | subtract nothing when nothing is focused | low (the example data sources never use negative indices); not executed | Reconciler.BubblesView.RefocusAsWritten | Reconciler.BubblesView.Refocus |
