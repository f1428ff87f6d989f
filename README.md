# Koloda card stack — a Dafny model

Koloda is an iOS widget that shows a deck of cards as a small stack. The
front card can be dragged, tapped or swiped away to the left or right, and
the last swiped card can be brought back ("revert"). This project models the
three core classes of the widget and proves properties about them:

- **KolodaView** is the stack controller. It keeps the window of visible
  cards (at most three), the count of consumed deck positions
  (`currentCardNumber`), the enabled and animating guards, and a recycler of
  card views. It reacts to its cards' reports: tap, drag, release, swipe.
  It also reloads, back-fills, reverts and swipes programmatically.
- **KolodaCardView** is a draggable card. Its pan and tap handlers turn a
  drag into a rotation, a scale, an overlay opacity and a progress percentage,
  and decide on release whether to spring back or commit to a side.
- **KolodaRecycler** is a pool of detached views plus two registries (nibs
  and classes) keyed by reuse identifier.

The modules are:

- `KolodaTypes`: shared values.
- `KolodaGeometry`: resting frames and frame interpolation.
- `KolodaCard`: the drag arithmetic and the class `KolodaCardView`.
- `KolodaRecycling`: the class `KolodaRecycler`.
- `KolodaDeck`: a pure specification of the window's deck bookkeeping.
- `KolodaStack`: the class `KolodaView`.

The controller's methods are proved against the `KolodaDeck` functions
through `DeckOf()`, which gives the counter and the deck index shown at
every window position.

Frames follow CoreGraphics: the size and edge accessors (`CGRectGetWidth`,
`CGRectGetMinX` and the others) read a rectangle through its standardised
form, so a rectangle with a negative width or height counts by its
magnitude. In a container shorter than the stack's margins (8 points) the
resting frames have negative heights, and the model keeps what the code then
computes.

Animations are modelled as a start method plus a `Complete…` method for the
completion block. A `pending…` flag records a started animation whose
completion has not run yet. A frame or alpha animation's end value is applied
when it starts, except the revert fade-in, whose end value (opaque) is applied
by its completion. Delegate calls are appended to an event log. Swift runtime
traps and raised exceptions are outcomes, not preconditions.

The model keeps several behaviours of the code exactly as written, and proves
them:

- The controller registers its card class under `"KolodaCardViewKey"`. A card
  carries `"KolodaCardView"` as its own identifier. So a recycled card never
  matches the key: creating a card leaves every pooled card view in the pool,
  and a recycled card is never reused (`CreateCard`). The same holds for any
  run of creations (`TookKeepsPooledCards`).
- The initial population numbers its cards from deck index 0 whatever the
  counter is. A reload after the deck ran out and grew again therefore shows
  the deck from its start (`SetupIgnoresCounter`).
- Back-filled cards are allocated directly rather than through the recycler.
  They get the frame of their 1-based position among the added cards, which
  is the frame of their window position only when the window held one card
  (`BackFilledFrame`).
- A revert drops the back card without recycling it, and notifies no
  delegate: `kolodaDidRevertCard` is declared but never called, and neither
  `RevertLastCard` nor `CompleteRevertAnimation` may change the event log.
- A programmatic swipe with direction `None` leaves the controller marked as
  animating. The card ignores the swipe, so no completion ever clears the
  flag.
- A swipe that empties the window is still followed by an insertion behind
  "the last card", which traps (`CardSwiped` returns `Trapped`).

## Model

| member | source | states |
|---|---|---|
| KolodaTypes.Direction.RawValue | Pod/Classes/KolodaView/KolodaCardView.swift:12-16 | None is 0, Left is negative, Right is positive, all within -1..1 |
| KolodaTypes.RectWidth | Pod/Classes/KolodaView/KolodaView.swift:160-161 | CGRectGetWidth: the magnitude of the width |
| KolodaTypes.RectHeight | Pod/Classes/KolodaView/KolodaView.swift:165 | CGRectGetHeight: the magnitude of the height |
| KolodaTypes.RectMinX | Pod/Classes/KolodaView/KolodaView.swift:267-268 | CGRectGetMinX: the left edge, at or left of both the origin and the far side |
| KolodaTypes.RectMinY | Pod/Classes/KolodaView/KolodaView.swift:264-265 | CGRectGetMinY: the top edge, at or above both the origin and the far side |
| KolodaTypes.Standardized | Pod/Classes/KolodaView/KolodaView.swift:263-278 | the rectangle covering the same points with a non-negative size: its origin is the smaller of each pair of edges and its size the magnitude of the given size; a rectangle of non-negative size is unchanged |
| KolodaGeometry.FrameForCardAtIndex | Pod/Classes/KolodaView/KolodaView.swift:152-170 | the front card's frame fills the width at the origin, with the stack height; a background card is placed below the standardised height of the card ahead |
| KolodaGeometry.FrameStacksOnPrevious | Pod/Classes/KolodaView/KolodaView.swift:152-170 | each background card is the previous one scaled by 0.95 and shifted 8 right; its bottom edge is 4 below the previous card's y plus its standardised height |
| KolodaGeometry.FrameBottomEdge | Pod/Classes/KolodaView/KolodaView.swift:152-170 | in a container tall enough for the stack, card index's bottom edge is 4·index below the front card's, so its y is the stack height times (1 − 0.95^index) plus 4·index |
| KolodaGeometry.FrameNonNegative | Pod/Classes/KolodaView/KolodaView.swift:152-170 | in a container tall enough for the stack every resting frame has a non-negative size and is its own standardised form |
| KolodaGeometry.ShortContainerFrame | Pod/Classes/KolodaView/KolodaView.swift:152-170 | in a zero-sized container the front card has height -8 and the second card sits at y = 19.6, because the card ahead counts by its magnitude |
| KolodaGeometry.FrameClosedForm | Pod/Classes/KolodaView/KolodaView.swift:152-170 | the direct form of the recursion: x = 8·index, width and stack height scaled by 0.95^index (the y coordinate, which builds up card by card, is FrameBottomEdge) |
| KolodaGeometry.ScalePowerBounds | Pod/Classes/KolodaView/KolodaView.swift:159-161 | the scale powers are in (0, 1] and strictly decreasing |
| KolodaGeometry.FrameShrinks | Pod/Classes/KolodaView/KolodaView.swift:152-170 | in a non-degenerate container each background card is strictly narrower, shorter and lower than the card ahead |
| KolodaGeometry.CalculateFrame | Pod/Classes/KolodaView/KolodaView.swift:263-278 | 0 percent gives the standardised current frame and 100 the standardised previous one; in between, every coordinate lies between the two standardised frames' |
| KolodaGeometry.CalculateFrameIsLinear | Pod/Classes/KolodaView/KolodaView.swift:263-278 | the interpolation is linear: changing the percent by a−b moves each coordinate by (a−b)/100 of the distance between the standardised frames |
| KolodaCard.MarginFor | Pod/Classes/KolodaView/KolodaCardView.swift:45-49 | the commit margin is half the width rounded down: a whole number, non-negative for a non-negative width, within 1 below the half width |
| KolodaCard.DetermineDirection | Pod/Classes/KolodaView/KolodaCardView.swift:140-151 | Left iff strictly past the margin to the left, Right iff strictly past it to the right, None iff on or inside the margin |
| KolodaCard.DragDirection | Pod/Classes/KolodaView/KolodaCardView.swift:214-221 | the reported drag direction is the sign of the translation, in both directions |
| KolodaCard.RotationStrength | Pod/Classes/KolodaView/KolodaCardView.swift:198 | translation over width, capped above at 1 only |
| KolodaCard.ScaleFor | Pod/Classes/KolodaView/KolodaCardView.swift:200-201 | the scale is in [0.8, 1], is 1 exactly at zero strength, is linear in the absolute strength up to 1, and is 0.8 from strength 1 on |
| KolodaCard.DragPercent | Pod/Classes/KolodaView/KolodaCardView.swift:211 | progress is in [0, 100]: 100 at or beyond one width, otherwise proportional to the absolute translation |
| KolodaCard.OverlayStrength | Pod/Classes/KolodaView/KolodaCardView.swift:129 | overlay opacity is in [0, 1], twice the absolute progress up to one half, zero iff no progress, fully opaque iff the progress is at least one half |
| KolodaCard.OverlayDirection | Pod/Classes/KolodaView/KolodaCardView.swift:128 | the overlay faces Right iff the progress is positive, and Left otherwise (zero included) |
| KolodaCard.RotationPivot | Pod/Classes/KolodaView/KolodaCardView.swift:192 | a touch from the rounded-down half height on pivots Left, above it Right |
| KolodaCard.SideDestinationX | Pod/Classes/KolodaView/KolodaCardView.swift:275 | a committed card flies to minus one screen width (Left) or two screen widths; negative iff Left |
| KolodaCard.CommitAgreesWithDrag | Pod/Classes/KolodaView/KolodaCardView.swift:140-151 | a committing release agrees with the last reported drag direction and the overlay's direction |
| KolodaCard.HalfWidthDrag | Pod/Classes/KolodaView/KolodaCardView.swift:197-224 | a drag of half the width reports 50 percent, strength 0.5, scale 0.9 and a fully opaque overlay |
| KolodaCard.KolodaCardView.constructor | Pod/Classes/KolodaView/KolodaCardView.swift:51-55 | a new card has the given identity and frame, its own reuse identifier, default values and empty slots |
| KolodaCard.KolodaCardView.AsView | Pod/Classes/KolodaView/KolodaCardView.swift:51-55 | the card as a view value carries its identity and its reuse identifier |
| KolodaCard.KolodaCardView.SetFrame | Pod/Classes/KolodaView/KolodaCardView.swift:45-49 | setting the frame recomputes the margin from the standardised width and changes nothing else |
| KolodaCard.KolodaCardView.PrepareForReuse | Pod/Classes/KolodaView/KolodaCardView.swift:65-70 | a reused card has empty slots and default values |
| KolodaCard.KolodaCardView.Configure | Pod/Classes/KolodaView/KolodaCardView.swift:74-81 | the slots afterwards depend on the arguments alone: the content, and the overlay at opacity 0 when given |
| KolodaCard.KolodaCardView.RemoveViews | Pod/Classes/KolodaView/KolodaCardView.swift:83-97 | returns the attached content and overlay and leaves both slots empty |
| KolodaCard.KolodaCardView.SetDefaultValues | Pod/Classes/KolodaView/KolodaCardView.swift:118-125 | number -1, margin and offsets zero, accepting actions, no pivot |
| KolodaCard.KolodaCardView.UpdateOverlayWithProgress | Pod/Classes/KolodaView/KolodaCardView.swift:127-131 | with an overlay, its direction and opacity follow the progress; without one, nothing changes |
| KolodaCard.KolodaCardView.TapGestureHandler | Pod/Classes/KolodaView/KolodaCardView.swift:163-165 | a tap is reported once and changes nothing else |
| KolodaCard.KolodaCardView.PanGestureHandler | Pod/Classes/KolodaView/KolodaCardView.swift:167-184 | the pan dispatch: begin records the pivot and origin, change moves, rotates and reports, and end, fail or cancel release by the commit decision; every field a phase does not set is unchanged |
| KolodaCard.KolodaCardView.PanBegan | Pod/Classes/KolodaView/KolodaCardView.swift:188-195 | the card stops accepting actions, remembers its centre and the pivot from the standardised height, and reports that movement started; nothing else changes |
| KolodaCard.KolodaCardView.PanChanged | Pod/Classes/KolodaView/KolodaCardView.swift:197-224 | the centre follows the translation; rotation, scale, overlay and the reported percent and direction follow the drag functions of the standardised width; nothing else changes |
| KolodaCard.KolodaCardView.PanEnded | Pod/Classes/KolodaView/KolodaCardView.swift:226-234 | the release springs back when the decision is None, and otherwise commits to that side; the fields neither path sets are unchanged |
| KolodaCard.KolodaCardView.AnimateToOriginalPlace | Pod/Classes/KolodaView/KolodaCardView.swift:238-270 | reports the release, disables interaction, and returns to the original centre with identity transform and a cleared overlay; the pivot, the pending side and the placement are unchanged |
| KolodaCard.KolodaCardView.CompleteSpringBack | Pod/Classes/KolodaView/KolodaCardView.swift:251-255 | the spring's completion re-enables interaction and actions and changes nothing else |
| KolodaCard.KolodaCardView.AnimateToSide | Pod/Classes/KolodaView/KolodaCardView.swift:272-281 | a commit flies to the side destination at the dragged height, reporting nothing yet; transform, pivot and the pending spring-back are unchanged |
| KolodaCard.KolodaCardView.Animate | Pod/Classes/KolodaView/KolodaCardView.swift:283-297 | the card is busy and its overlay fully shows the commit direction; position, transform and pivot are unchanged |
| KolodaCard.KolodaCardView.CompleteSideAnimation | Pod/Classes/KolodaView/KolodaCardView.swift:290-296 | the completion reports the swipe exactly once and re-enables the card; nothing else changes |
| KolodaCard.KolodaCardView.Swipe | Pod/Classes/KolodaView/KolodaCardView.swift:301-312 | acts only when accepting actions and the direction is not None: flies tilted to the side at its current height, busy, with the overlay showing the direction; otherwise nothing changes; either way the placement, pivot and reports are unchanged (SwipedAs) |
| KolodaRecycling.KolodaRecycler.constructor | Pod/Classes/KolodaView/KolodaRecycler.swift:17-21 | an empty pool and empty registries |
| KolodaRecycling.KolodaRecycler.RegisterNib | Pod/Classes/KolodaView/KolodaRecycler.swift:23-29 | the nib is registered, a class under the same identifier is dropped, and the registries stay disjoint |
| KolodaRecycling.KolodaRecycler.RegisterClass | Pod/Classes/KolodaView/KolodaRecycler.swift:31-37 | the class is registered, a nib under the same identifier is dropped, and the registries stay disjoint |
| KolodaRecycling.KolodaRecycler.Enqueue | Pod/Classes/KolodaView/KolodaRecycler.swift:39-41 | the pool gains exactly the item |
| KolodaRecycling.KolodaRecycler.Dequeue | Pod/Classes/KolodaView/KolodaRecycler.swift:43-66 | reuse iff a pooled view carries the identifier (removing it); else a class instance, else a nib object, else fatal; each case is an iff |
| KolodaRecycling.KolodaRecycler.RemoveUnusedItems | Pod/Classes/KolodaView/KolodaRecycler.swift:68-70 | empties the pool and keeps the registries |
| KolodaDeck.Setup | Pod/Classes/KolodaView/KolodaView.swift:119-140 | the population appends one window's worth of cards, numbered from deck index 0, and keeps the counter |
| KolodaDeck.Swipe | Pod/Classes/KolodaView/KolodaView.swift:359-379 | a swipe drops the front card and advances the counter; it appends index counter+2 iff the deck has it |
| KolodaDeck.Revert | Pod/Classes/KolodaView/KolodaView.swift:424-438 | a revert steps the counter back and puts its position in front, dropping the back card iff a full window is left |
| KolodaDeck.LoadMissing | Pod/Classes/KolodaView/KolodaView.swift:503-525 | a back-fill keeps the counter, adds the capped number of cards, and leaves the window contiguous from the counter |
| KolodaDeck.LoadMissingCount | Pod/Classes/KolodaView/KolodaView.swift:504-506 | the number of added cards is at most the number missing; with cards missing it is positive and stays within the deck |
| KolodaDeck.Reskin | Pod/Classes/KolodaView/KolodaView.swift:492-500 | a re-skin keeps the counter and the window size and makes the window contiguous from the counter |
| KolodaDeck.ReloadStart | Pod/Classes/KolodaView/KolodaView.swift:474-476 | at counter 0 the window is cleared; otherwise nothing changes |
| KolodaDeck.SwipePreservesWellFormed | Pod/Classes/KolodaView/KolodaView.swift:359-379 | a swipe keeps a full, contiguous window full and contiguous |
| KolodaDeck.RevertPreservesWellFormed | Pod/Classes/KolodaView/KolodaView.swift:424-438 | a revert keeps a full, contiguous window full and contiguous |
| KolodaDeck.RevertUndoesSwipe | Pod/Classes/KolodaView/KolodaView.swift:424-438 | reverting right after a swipe restores the counter and every window position |
| KolodaDeck.ReloadFromStart | Pod/Classes/KolodaView/KolodaView.swift:468-501 | a reload at counter 0 shows deck indices 0.. up to the window size, and the window is well formed |
| KolodaDeck.ReloadBackFillBounded | Pod/Classes/KolodaView/KolodaView.swift:478-482 | a back-fill never grows the window past its size and fills it up to the cards left |
| KolodaDeck.ReloadAfterGrowth | Pod/Classes/KolodaView/KolodaView.swift:468-501 | after the deck grows or stays the same, a reload of a non-empty window (or one at counter 0) is well formed again |
| KolodaDeck.SetupIgnoresCounter | Pod/Classes/KolodaView/KolodaView.swift:119-126 | a reload of an empty window at a positive counter shows deck index 0 in front, so the window is not contiguous from the counter |
| KolodaStack.Alpha.Value | Pod/Classes/KolodaView/KolodaView.swift:128 | alpha levels are in [0, 1]; 1 only for opaque, 0 only for transparent |
| KolodaStack.Decks | Pod/Classes/KolodaView/KolodaView.swift:62 | the deck index of each card in window order |
| KolodaStack.Released | Pod/Classes/KolodaView/KolodaView.swift:544-551 | the views handed to the pool include every card's own, content and overlay views |
| KolodaStack.IndexOf | Pod/Classes/KolodaView/KolodaView.swift:320-328 | the first window position holding the card; Nil iff no position holds it |
| KolodaStack.TapReportsShownDeck | Pod/Classes/KolodaView/KolodaView.swift:320-328 | with a contiguous window, a tap reports exactly the deck index the tapped card shows |
| KolodaStack.TookAppend | Pod/Classes/KolodaView/KolodaView.swift:129-137 | creations chain: creating a run of cards and then one more is one run of creations, in that order |
| KolodaStack.TookKeepsPooledCards | Pod/Classes/KolodaView/KolodaView.swift:179-189 | a run of card creations only shrinks the pool, loses only the objects the new cards took, and never takes a pooled card object (one carrying the card's own identifier), so a recycled card is never reused |
| KolodaStack.BackFilledFrame | Pod/Classes/KolodaView/KolodaView.swift:506-508 | a back-filled card's frame equals its window position's frame iff the window held one card |
| KolodaStack.KolodaView.constructor | Pod/Classes/KolodaView/KolodaView.swift:71-81 | the card class is registered under the card key; the container size is stored standardised; enabled, appearing animated, nothing shown |
| KolodaStack.KolodaView.SetEnabled | Pod/Classes/KolodaView/KolodaView.swift:49-59 | setting enabled also sets user interaction |
| KolodaStack.KolodaView.DequeueReusableView | Pod/Classes/KolodaView/KolodaView.swift:101-103 | the recycler's dequeue: reuse, class instance, nib object and fatal, each as an iff; the pool loses only a reused view; the registries are unchanged |
| KolodaStack.KolodaView.RegisterNib | Pod/Classes/KolodaView/KolodaView.swift:105-107 | forwards to the recycler |
| KolodaStack.KolodaView.RegisterClass | Pod/Classes/KolodaView/KolodaView.swift:109-111 | forwards to the recycler |
| KolodaStack.KolodaView.CreateCard | Pod/Classes/KolodaView/KolodaView.swift:179-189 | a card for the index with the data source's content and overlay; reuses a pooled view carrying the key iff there is one (the pool loses exactly that view), else allocates the recycler's next object (the pool is unchanged); every pooled card view stays in the pool, so a recycled card is never reused |
| KolodaStack.KolodaView.Recycle | Pod/Classes/KolodaView/KolodaView.swift:199-212 | the pool gains exactly the card, its content and its overlay; the allocation counter is unchanged |
| KolodaStack.KolodaView.SetupCards | Pod/Classes/KolodaView/KolodaView.swift:119-140 | follows KolodaDeck.Setup and keeps the cards already shown; each new card is created for its loop index, at that index's frame, opaque and interactive only at index 0; the pool loses exactly the objects the new cards took, in order; an empty window ends up showing the data source in the resting layout |
| KolodaStack.KolodaView.SetDataSource | Pod/Classes/KolodaView/KolodaView.swift:39-45 | assigning a data source runs the population: the deck step, the placed new cards, the pool losing exactly their objects, and the resting layout when the window was empty |
| KolodaStack.KolodaView.LayoutCards | Pod/Classes/KolodaView/KolodaView.swift:146-150 | every card moves to its position's frame and nothing else changes; a laid-out window is unchanged |
| KolodaStack.KolodaView.LayoutSubviews | Pod/Classes/KolodaView/KolodaView.swift:83-97 | the first pass reloads an empty window (with ReloadData's data-source, layout, pool and appear-animation results) or moves every card to its frame and changes nothing else, the pool included; later passes change nothing |
| KolodaStack.KolodaView.RemoveAllCards | Pod/Classes/KolodaView/KolodaView.swift:544-551 | every card is recycled (the pool gains exactly their views; the allocation counter is unchanged), and the window and counter are reset |
| KolodaStack.KolodaView.ResetAndReload | Pod/Classes/KolodaView/KolodaView.swift:553-556 | a reload from scratch: every shown card is recycled first; with a non-empty deck the window is well formed, shows the data source and rests in the layout, the new cards are created from that pool (it loses exactly their objects), and the appear animation starts when enabled; with an empty deck the pool keeps the recycled cards |
| KolodaStack.KolodaView.ReskinCards | Pod/Classes/KolodaView/KolodaView.swift:492-500 | follows KolodaDeck.Reskin; every card shows the content for counter plus position; nothing else changes |
| KolodaStack.KolodaView.LoadMissingCards | Pod/Classes/KolodaView/KolodaView.swift:503-525 | follows KolodaDeck.LoadMissing; new cards are allocated by the controller, semi-transparent, at frame(k+1) |
| KolodaStack.KolodaView.ReloadData | Pod/Classes/KolodaView/KolodaView.swift:468-501 | follows KolodaDeck.Reload; with a non-empty deck every card shows the data source; at counter 0 every shown card is recycled and the new cards are created from that pool; the population path rests in the layout and its new cards take exactly their objects from the pool; otherwise (an empty deck included) the pool is unchanged; a back-fill keeps the old cards' placement and adds back-filled cards; the appear animation starts iff the population path is taken and appearing is animated |
| KolodaStack.KolodaView.RefillCards | Pod/Classes/KolodaView/KolodaView.swift:478-500 | follows KolodaDeck.Refill and shows the data source; the population path rests in the layout and the pool loses exactly the new cards' objects; otherwise the pool is unchanged; the old cards keep their placement and a back-fill adds allocated cards at frame(k+1) |
| KolodaStack.KolodaView.PopulateCards | Pod/Classes/KolodaView/KolodaView.swift:483-490 | population, layout and the optional appear animation: only the front card is opaque and interactive, each card is at its frame, and the pool loses exactly the new cards' objects |
| KolodaStack.KolodaView.PlaceInitialCards | Pod/Classes/KolodaView/KolodaView.swift:484-485 | populating and laying out an empty window follows KolodaDeck.Setup, shows the data source, gives the initial layout, and the pool loses exactly the new cards' objects |
| KolodaStack.KolodaView.MoveOtherCardsWithFinishPercent | Pod/Classes/KolodaView/KolodaView.swift:236-261 | every background card moves percent of the way to the frame ahead; the second card becomes opaque; the front card and the decks are unchanged |
| KolodaStack.KolodaView.ResetVisibleCardsTransparency | Pod/Classes/KolodaView/KolodaView.swift:172-177 | every card but the front one becomes semi-transparent |
| KolodaStack.KolodaView.FindCard | Pod/Classes/KolodaView/KolodaView.swift:320-328 | the loop finds the first position holding the card, or none |
| KolodaStack.KolodaView.CardTapped | Pod/Classes/KolodaView/KolodaView.swift:320-328 | reports the counter plus the card's position, or raises "card not found" |
| KolodaStack.KolodaView.CardReleased | Pod/Classes/KolodaView/KolodaView.swift:330-347 | disables itself, reports the end of the interaction, and moves the background cards to their standardised frames, the second one opaque; the front card is unchanged; enabled at once iff at most one card is shown |
| KolodaStack.KolodaView.CompleteReleaseAnimation | Pod/Classes/KolodaView/KolodaView.swift:337-342 | traps iff the window is empty; otherwise the background cards are semi-transparent and the controller is enabled |
| KolodaStack.KolodaView.CardMovementStarted | Pod/Classes/KolodaView/KolodaView.swift:349-352 | busy, with the start of the interaction reported |
| KolodaStack.KolodaView.CardDragged | Pod/Classes/KolodaView/KolodaView.swift:354-357 | the background cards follow the drag percent, the second becomes opaque, and the progress is reported; the front card, the window size and the decks are unchanged |
| KolodaStack.KolodaView.CardSwiped | Pod/Classes/KolodaView/KolodaView.swift:359-379 | traps iff the window is empty or the last card goes while one is due to be inserted; otherwise follows KolodaDeck.Swipe, the kept cards are the old ones from position 1 on, moved one position forward into the resting layout, with a hidden card appended for the next deck index, or with the window empty the swipe and the end of the deck are reported; the pool gains the swiped card's views on every path and loses exactly the appended card's object when one is appended |
| KolodaStack.KolodaView.SwipeOutFrontCard | Pod/Classes/KolodaView/KolodaView.swift:364-378 | the window part of a swipe: traps iff the last card goes while one is due to be inserted; otherwise the deck step, the kept cards shifted forward into place and the appended hidden card; the pool loses exactly the appended card's object, and is unchanged when none is appended |
| KolodaStack.KolodaView.SettleAfterSwipe | Pod/Classes/KolodaView/KolodaView.swift:373-378 | after the deck step, a non-empty window moves into the resting layout with the swipe animation pending and every card keeps its object; an empty one reports the swipe and the end of the deck and re-enables the controller |
| KolodaStack.KolodaView.AdvancePastFrontCard | Pod/Classes/KolodaView/KolodaView.swift:364-371 | the deck step of a swipe follows KolodaDeck.Swipe; the kept cards are the old ones from position 1 on, unchanged, and the appended card shows its content and is hidden; the pool loses exactly the appended card's object, and is unchanged when none is appended; traps iff it must append behind an empty window |
| KolodaStack.KolodaView.InsertNewCardInStack | Pod/Classes/KolodaView/KolodaView.swift:383-390 | appends a hidden, interactive card for the index behind the last card; the pool loses exactly that card's object |
| KolodaStack.KolodaView.MoveCardsInDeckAfterSwipe | Pod/Classes/KolodaView/KolodaView.swift:392-412 | every card goes to its frame; only the front card is opaque and interactive |
| KolodaStack.KolodaView.CompleteSwipeAnimation | Pod/Classes/KolodaView/KolodaView.swift:397-402 | shows the last card, enables the controller, and reports the swipe of position counter-1 |
| KolodaStack.KolodaView.DidSwipeLastCard | Pod/Classes/KolodaView/KolodaView.swift:414-420 | enables the controller and reports the swipe and the end of the deck |
| KolodaStack.KolodaView.RevertLastCard | Pod/Classes/KolodaView/KolodaView.swift:424-438 | acts iff a card was consumed and nothing moves; then follows KolodaDeck.Revert, puts a transparent card in front (the pool loses exactly its object), and moves the others back; otherwise nothing changes, the pool included |
| KolodaStack.KolodaView.AnimateBackLastCard | Pod/Classes/KolodaView/KolodaView.swift:444-453 | a transparent card for the counter at the front frame, with its fade-in started; the pool loses exactly its object |
| KolodaStack.KolodaView.ApplyRevertAnimation | Pod/Classes/KolodaView/KolodaView.swift:304-316 | the controller is busy with the fade-in of that card |
| KolodaStack.KolodaView.CompleteRevertAnimation | Pod/Classes/KolodaView/KolodaView.swift:307-313 | the faded-in card is opaque wherever it is in the window, and the controller is not busy |
| KolodaStack.KolodaView.MoveCardsInDeckAfterRevert | Pod/Classes/KolodaView/KolodaView.swift:455-464 | every card behind the front one is semi-transparent, not interactive, and at its frame |
| KolodaStack.KolodaView.ApplyAppearAnimation | Pod/Classes/KolodaView/KolodaView.swift:282-302 | busy, with interaction off |
| KolodaStack.KolodaView.CompleteAppearAnimation | Pod/Classes/KolodaView/KolodaView.swift:290-293 | interaction is back on and the controller is not busy |
| KolodaStack.KolodaView.Swipe | Pod/Classes/KolodaView/KolodaView.swift:529-540 | requires the card object to be the front card; forwards iff a card is shown, enabled and not busy; then busy, the front card swipes exactly as KolodaCardView.Swipe states, and the second card becomes opaque; otherwise neither the controller nor the card changes; with None the busy flag sticks |

## Left out

- Animation timing (the POP and UIView animations): every animation is a start step plus a completion step, and a frame's end value is applied at the start.
- The appear animation's scale and alpha of the container itself: only its effect on the busy and interaction flags is modelled.
- Transforms as matrices, rotation angles and layer rasterization: the card keeps the scalars its transform is built from.
- Floating point: coordinates are exact reals, and a zero-width card is excluded where the source divides by the width.
- Subview z-order (`addSubview`, `insertSubview(_:belowSubview:)`, `removeFromSuperview`): the window order is modelled, the view hierarchy is not.
- Gesture recogniser delivery: the pan and tap handlers are called with the recogniser's state, location and translation as parameters.
- The device screen's width is a parameter, and the container's size is a constant of the controller (no resize).
- A nil data source, a nil content view (which raises an exception) and nil delegates: the data source is always present and total.
- The `as?`/`as!` casts of dequeued objects: the card key always yields a card object.
- A reused card object is given the frame, alpha and hidden flag it is assigned, as a fresh card would be; its other stale state is not tracked on the record.
- `setupAfterAwake` and `prepareForReuse` of pooled items: a dequeued item is a `View` value, so these hooks have nothing to change in the model.
- The visual and animation settings are constants (alpha 1.0, 0.7 and 0.0; margins 4 and 8; scale 0.95); the window size is fixed at 3.
- The content and overlay subviews of the card are record fields, not separate objects with their own state.
- The overlay's own reaction to a direction change: only the direction and opacity it is given are recorded.
- Object identity of host-created views is a serial number; the host may give views any reuse identifier.
- KolodaStack.KolodaView.CreateCard: does not set the delegate, which is implicit in the model because the controller receives every card report.
- KolodaStack.KolodaView.LoadMissingCards: the new cards are records and not `KolodaCardView` objects built by the card's initializer.
- KolodaStack.KolodaView.CardSwiped: recycles the card record it is given without checking that it is the front card, as the source does; the model does not link the delegate call's card object to the window.
