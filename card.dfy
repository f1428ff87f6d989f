/** A draggable card: the arithmetic that turns a drag into rotation, scale,
    progress and a commit decision, and the card object whose fields the
    gesture handlers, the slot operations and the animation completions
    update. */
module KolodaCard {
  import opened KolodaTypes

  const RotationMax: real := 1.0
  const ScaleMin: real := 0.8

  /** The reuse identifier every card object sets for itself. */
  const CardViewIdentifier: string := "KolodaCardView"

  // ---------------------------------------------------------------------
  // Drag arithmetic

  /** Half the card's width, rounded down: how far a drag must go to commit. */
  function MarginFor(width: real): (m: real)
    ensures width >= 0.0 ==> 0.0 <= m
    ensures m <= width / 2.0 < m + 1.0
    ensures m.Floor as real == m
  {
    Floor(width / 2.0)
  }

  /** The commit decision on release: strictly past the margin to the left or
      to the right, and no commit on the margin itself. */
  function DetermineDirection(dx: real, margin: real): (d: Direction)
    ensures d == Left <==> dx < -margin
    ensures margin >= 0.0 ==> (d == Right <==> margin < dx)
    ensures margin >= 0.0 ==> (d == None <==> -margin <= dx <= margin)
  {
    if dx < -margin then Left
    else if margin < dx then Right
    else None
  }

  /** The direction reported with every drag step: the sign of the
      horizontal translation. */
  function DragDirection(dx: real): (d: Direction)
    ensures d == Left <==> dx < 0.0
    ensures d == Right <==> dx > 0.0
    ensures d == None <==> dx == 0.0
  {
    if dx < 0.0 then Left
    else if 0.0 < dx then Right
    else None
  }

  /** Horizontal translation relative to the card's width, capped above at
      `RotationMax` only: a far drag to the left is not capped. */
  function RotationStrength(dx: real, width: real): (s: real)
    requires width > 0.0
    ensures s <= RotationMax
    ensures dx <= width ==> s == dx / width
    ensures dx >= width ==> s == RotationMax
  {
    MinReal(dx / width, RotationMax)
  }

  /** The card shrinks with the rotation strength, never below `ScaleMin`. */
  function ScaleFor(rotationStrength: real): (scale: real)
    ensures ScaleMin <= scale <= 1.0
    ensures scale == 1.0 <==> rotationStrength == 0.0
    ensures Abs(rotationStrength) <= 1.0 ==> scale == 1.0 - (1.0 - ScaleMin) * Abs(rotationStrength)
    ensures Abs(rotationStrength) >= 1.0 ==> scale == ScaleMin
  {
    var scaleStrength := 1.0 - ((1.0 - ScaleMin) * Abs(rotationStrength));
    MaxReal(scaleStrength, ScaleMin)
  }

  /** Drag progress in percent of the card's width, within [0, 100]. */
  function DragPercent(dx: real, width: real): (p: real)
    requires width > 0.0
    ensures 0.0 <= p <= 100.0
    ensures Abs(dx) >= width ==> p == 100.0
    ensures Abs(dx) <= width ==> p * width == Abs(dx) * 100.0
  {
    var raw := Abs(dx * 100.0 / width);
    assert raw * width == Abs(dx) * 100.0 by { ScaledAbs(dx, width); }
    assert Abs(dx) >= width ==> raw >= 100.0 by { ScaledAbs(dx, width); }
    assert Abs(dx) <= width ==> raw <= 100.0 by { ScaledAbs(dx, width); }
    MinReal(raw, 100.0)
  }

  lemma ScaledAbs(dx: real, width: real)
    requires width > 0.0
    ensures Abs(dx * 100.0 / width) * width == Abs(dx) * 100.0
    ensures Abs(dx) >= width ==> Abs(dx * 100.0 / width) >= 100.0
    ensures Abs(dx) <= width ==> Abs(dx * 100.0 / width) <= 100.0
  {
    var q := dx * 100.0 / width;
    assert q * width == dx * 100.0;
    if dx < 0.0 {
      assert q < 0.0;
      assert Abs(q) * width == Abs(dx) * 100.0;
    } else {
      assert q >= 0.0;
    }
  }

  /** Overlay opacity for a progress `p` (translation over width): twice the
      progress, capped at fully opaque. */
  function OverlayStrength(p: real): (alpha: real)
    ensures 0.0 <= alpha <= 1.0
    ensures alpha == 0.0 <==> p == 0.0
    ensures Abs(p) >= 0.5 <==> alpha == 1.0
    ensures Abs(p) <= 0.5 ==> alpha == 2.0 * Abs(p)
  {
    MinReal(Abs(2.0 * p), 1.0)
  }

  /** The overlay faces right only for a positive progress; zero counts as
      left. */
  function OverlayDirection(p: real): (d: Direction)
    ensures d == Right <==> p > 0.0
    ensures d == Left <==> p <= 0.0
  {
    if 0.0 < p then Right else Left
  }

  /** The rotation pivot, chosen once per drag: a touch in the lower half
      (from the rounded-down half height on) rotates about the left. */
  function RotationPivot(height: real, touchY: real): (d: Direction)
    ensures d == Left <==> Floor(height / 2.0) <= touchY
    ensures d == Right <==> touchY < Floor(height / 2.0)
  {
    if Floor(height / 2.0) <= touchY then Left else Right
  }

  /** The horizontal destination of a committed card: one screen width off
      the left edge, or two screen widths to the right. */
  function SideDestinationX(direction: Direction, screenWidth: real): (x: real)
    ensures direction == Left ==> x == -screenWidth
    ensures direction != Left ==> x == 2.0 * screenWidth
    ensures screenWidth > 0.0 ==> (x < 0.0 <==> direction == Left)
  {
    if direction == Left then -screenWidth else 2.0 * screenWidth
  }

  /** A committing release agrees with the last reported drag direction and,
      for a card of positive width, with the overlay's direction. */
  lemma CommitAgreesWithDrag(dx: real, width: real)
    requires width > 0.0
    requires DetermineDirection(dx, MarginFor(width)) != None
    ensures DetermineDirection(dx, MarginFor(width)) == DragDirection(dx)
    ensures DetermineDirection(dx, MarginFor(width)) == OverlayDirection(dx / width)
  {
    var m := MarginFor(width);
    if dx < -m {
      assert dx / width < 0.0 by { NegativeQuotient(dx, width); }
    } else {
      assert dx / width > 0.0 by { PositiveQuotient(dx, width); }
    }
  }

  lemma NegativeQuotient(dx: real, width: real)
    requires width > 0.0 && dx < 0.0
    ensures dx / width < 0.0
  {
  }

  lemma PositiveQuotient(dx: real, width: real)
    requires width > 0.0 && dx > 0.0
    ensures dx / width > 0.0
  {
  }

  /** A drag of half the card's width to the right: progress 50 percent,
      rotation strength one half, scale 0.9, overlay fully opaque. */
  lemma HalfWidthDrag(width: real)
    requires width > 0.0
    ensures DragPercent(width / 2.0, width) == 50.0
    ensures RotationStrength(width / 2.0, width) == 0.5
    ensures ScaleFor(RotationStrength(width / 2.0, width)) == 0.9
    ensures OverlayStrength((width / 2.0) / width) == 1.0
  {
    HalfOver(width);
  }

  lemma HalfOver(width: real)
    requires width > 0.0
    ensures (width / 2.0) / width == 0.5
    ensures (width / 2.0) * 100.0 / width == 50.0
  {
    assert (width / 2.0) == 0.5 * width;
    assert (0.5 * width) / width == 0.5;
  }

  // ---------------------------------------------------------------------
  // The card object

  /** What the card reports to its delegate, the stack controller. */
  datatype CardReport =
    | Tapped
    | MovementStarted
    | Dragged(percent: real, direction: Direction)
    | Released
    | Swiped(direction: Direction)

  /** The card's transform, kept as the scalars the rendering derives it
      from: a drag's rotation strength, pivot and scale, or the fixed tilt of
      a programmatic swipe. */
  datatype Transform =
    | Identity
    | DragTransform(rotationStrength: real, pivot: Direction, scale: real)
    | Tilted(direction: Direction)

  /** The phases a pan gesture recogniser reports. */
  datatype PanState = Possible | Began | Changed | Ended | Failed | Cancelled

  /** A card's content and overlay slots: the views attached and the
      overlay's opacity (zero when there is no overlay). */
  datatype Slots = Slots(content: Option<View>, overlay: Option<View>, overlayAlpha: real)

  class KolodaCardView {
    /** The object's identity, and the reuse identifier it sets for itself. */
    const id: ObjectId
    const identifier: string
    var frame: Rect
    var center: Point
    var transform: Transform
    var userInteractionEnabled: bool

    var contentView: Option<View>
    var overlayView: Option<View>
    /** State of the attached overlay view; meaningful while one is attached. */
    var overlayAlpha: real
    var overlayDirection: Direction

    var number: int
    var margin: real
    var distance: Point
    var originalCenter: Point
    var acceptsAction: bool
    var rotationDirection: Direction

    /** Calls made to the delegate, oldest first. */
    var reports: seq<CardReport>
    /** Started animations whose completion blocks have not run yet. */
    var pendingSpringBack: bool
    var pendingSide: Option<Direction>

    /** The values a fresh or reused card starts from. */
    predicate HasDefaultValues()
      reads this
    {
      number == -1 && margin == 0.0 && distance == ZeroPoint && originalCenter == ZeroPoint
      && acceptsAction && rotationDirection == None
    }

    /** The card as a plain view value: its identity and reuse identifier. */
    function AsView(): (v: View)
      reads this
      ensures v.id == id && v.identifier == identifier
    {
      View(id, identifier)
    }

    function SlotState(): Slots
      reads this
    {
      Slots(contentView, overlayView, if overlayView.Some? then overlayAlpha else 0.0)
    }

    /** A card created with a frame: its own identifier, default values and
      empty slots. */
    constructor (id: ObjectId, frame: Rect)
      ensures this.id == id && identifier == CardViewIdentifier
      ensures this.frame == frame && transform == Identity && userInteractionEnabled
      ensures HasDefaultValues()
      ensures contentView == Nil && overlayView == Nil
      ensures reports == [] && !pendingSpringBack && pendingSide == Nil
    {
      this.id := id;
      identifier := CardViewIdentifier;
      this.frame := frame;
      center := Point(frame.x + frame.width / 2.0, frame.y + frame.height / 2.0);
      transform := Identity;
      userInteractionEnabled := true;
      contentView := Nil;
      overlayView := Nil;
      overlayAlpha := 1.0;
      overlayDirection := None;
      number := -1;
      margin := 0.0;
      distance := ZeroPoint;
      originalCenter := ZeroPoint;
      acceptsAction := true;
      rotationDirection := None;
      reports := [];
      pendingSpringBack := false;
      pendingSide := Nil;
    }

    /** Assigning the frame recomputes the commit margin. */
    method SetFrame(f: Rect)
      modifies this
      ensures frame == f && margin == MarginFor(RectWidth(f))
      ensures center == Point(f.x + f.width / 2.0, f.y + f.height / 2.0)
      ensures 0.0 <= margin <= RectWidth(f) / 2.0
      ensures contentView == old(contentView) && overlayView == old(overlayView)
      ensures overlayAlpha == old(overlayAlpha) && overlayDirection == old(overlayDirection)
      ensures number == old(number) && distance == old(distance) && originalCenter == old(originalCenter)
      ensures acceptsAction == old(acceptsAction) && rotationDirection == old(rotationDirection)
      ensures transform == old(transform) && userInteractionEnabled == old(userInteractionEnabled)
      ensures reports == old(reports) && pendingSpringBack == old(pendingSpringBack) && pendingSide == old(pendingSide)
    {
      frame := f;
      center := Point(f.x + f.width / 2.0, f.y + f.height / 2.0);
      margin := MarginFor(RectWidth(f));
    }

    /** Detaches the content and overlay views and hands them back. */
    method RemoveViews() returns (content: Option<View>, overlay: Option<View>)
      modifies this
      ensures content == old(contentView) && overlay == old(overlayView)
      ensures contentView == Nil && overlayView == Nil
      ensures overlayAlpha == old(overlayAlpha) && overlayDirection == old(overlayDirection)
      ensures frame == old(frame) && center == old(center) && transform == old(transform)
      ensures userInteractionEnabled == old(userInteractionEnabled)
      ensures number == old(number) && margin == old(margin) && distance == old(distance)
      ensures originalCenter == old(originalCenter) && acceptsAction == old(acceptsAction)
      ensures rotationDirection == old(rotationDirection)
      ensures reports == old(reports) && pendingSpringBack == old(pendingSpringBack) && pendingSide == old(pendingSide)
    {
      content, overlay := contentView, overlayView;
      contentView := Nil;
      overlayView := Nil;
    }

    /** Replaces the card's views: the content always, the overlay when one
      is given, attached fully transparent. The resulting slots depend on the
      arguments alone, so configuring twice with the same views leaves the
      same slots as configuring once. */
    method Configure(content: View, overlay: Option<View>)
      modifies this
      ensures contentView == Some(content) && overlayView == overlay
      ensures overlay.Some? ==> overlayAlpha == 0.0
      ensures SlotState() == Slots(Some(content), overlay, 0.0)
      ensures overlay.Nil? ==> overlayAlpha == old(overlayAlpha)
      ensures overlayDirection == old(overlayDirection)
      ensures frame == old(frame) && center == old(center) && transform == old(transform)
      ensures userInteractionEnabled == old(userInteractionEnabled)
      ensures number == old(number) && margin == old(margin) && distance == old(distance)
      ensures originalCenter == old(originalCenter) && acceptsAction == old(acceptsAction)
      ensures rotationDirection == old(rotationDirection)
      ensures reports == old(reports) && pendingSpringBack == old(pendingSpringBack) && pendingSide == old(pendingSide)
    {
      var _, _ := RemoveViews();
      contentView := Some(content);
      if overlay.Some? {
        overlayView := overlay;
        overlayAlpha := 0.0;
      }
    }

    method SetDefaultValues()
      modifies this
      ensures HasDefaultValues()
      ensures contentView == old(contentView) && overlayView == old(overlayView)
      ensures overlayAlpha == old(overlayAlpha) && overlayDirection == old(overlayDirection)
      ensures frame == old(frame) && center == old(center) && transform == old(transform)
      ensures userInteractionEnabled == old(userInteractionEnabled)
      ensures reports == old(reports) && pendingSpringBack == old(pendingSpringBack) && pendingSide == old(pendingSide)
    {
      number := -1;
      margin := 0.0;
      distance := ZeroPoint;
      originalCenter := ZeroPoint;
      acceptsAction := true;
      rotationDirection := None;
    }

    /** Resets a pooled card before reuse: empty slots and default values. */
    method PrepareForReuse()
      modifies this
      ensures contentView == Nil && overlayView == Nil
      ensures HasDefaultValues()
      ensures overlayAlpha == old(overlayAlpha) && overlayDirection == old(overlayDirection)
      ensures frame == old(frame) && center == old(center) && transform == old(transform)
      ensures userInteractionEnabled == old(userInteractionEnabled)
      ensures reports == old(reports) && pendingSpringBack == old(pendingSpringBack) && pendingSide == old(pendingSide)
    {
      contentView := Nil;
      overlayView := Nil;
      SetDefaultValues();
    }

    /** Overlay feedback for a progress `p`: direction from its sign, opacity
      from its size. Without an overlay nothing changes. */
    method UpdateOverlayWithProgress(p: real)
      modifies this
      ensures overlayView.Some? ==> overlayDirection == OverlayDirection(p) && overlayAlpha == OverlayStrength(p)
      ensures overlayView.Nil? ==> overlayDirection == old(overlayDirection) && overlayAlpha == old(overlayAlpha)
      ensures overlayView == old(overlayView) && contentView == old(contentView)
      ensures frame == old(frame) && center == old(center) && transform == old(transform)
      ensures userInteractionEnabled == old(userInteractionEnabled)
      ensures number == old(number) && margin == old(margin) && distance == old(distance)
      ensures originalCenter == old(originalCenter) && acceptsAction == old(acceptsAction)
      ensures rotationDirection == old(rotationDirection)
      ensures reports == old(reports) && pendingSpringBack == old(pendingSpringBack) && pendingSide == old(pendingSide)
    {
      if overlayView.Some? {
        overlayDirection := OverlayDirection(p);
        overlayAlpha := OverlayStrength(p);
      }
    }

    /** A tap is reported as such, whatever the drag state. */
    method TapGestureHandler()
      modifies this
      ensures reports == old(reports) + [Tapped]
      ensures contentView == old(contentView) && overlayView == old(overlayView)
      ensures overlayAlpha == old(overlayAlpha) && overlayDirection == old(overlayDirection)
      ensures frame == old(frame) && center == old(center) && transform == old(transform)
      ensures userInteractionEnabled == old(userInteractionEnabled)
      ensures number == old(number) && margin == old(margin) && distance == old(distance)
      ensures originalCenter == old(originalCenter) && acceptsAction == old(acceptsAction)
      ensures rotationDirection == old(rotationDirection)
      ensures pendingSpringBack == old(pendingSpringBack) && pendingSide == old(pendingSide)
    {
      reports := reports + [Tapped];
    }

    /** One pan event: records the cumulative translation, then dispatches on
      the phase; `screenWidth` is the device screen's width. */
    method PanGestureHandler(state: PanState, location: Point, translation: Point, screenWidth: real)
      requires state == Changed ==> RectWidth(frame) > 0.0
      modifies this
      ensures distance == translation
      ensures frame == old(frame) && margin == old(margin) && number == old(number)
      ensures contentView == old(contentView) && overlayView == old(overlayView)
      ensures state == Began ==>
                && !acceptsAction && originalCenter == old(center)
                && rotationDirection == RotationPivot(RectHeight(frame), location.y)
                && reports == old(reports) + [MovementStarted]
                && center == old(center) && transform == old(transform)
                && userInteractionEnabled == old(userInteractionEnabled)
                && overlayAlpha == old(overlayAlpha) && overlayDirection == old(overlayDirection)
                && pendingSpringBack == old(pendingSpringBack) && pendingSide == old(pendingSide)
      ensures state == Changed ==>
                var strength := RotationStrength(translation.x, RectWidth(frame));
                && transform == DragTransform(strength, rotationDirection, ScaleFor(strength))
                && center == Point(originalCenter.x + translation.x, originalCenter.y + translation.y)
                && (overlayView.Some? ==>
                      overlayAlpha == OverlayStrength(translation.x / RectWidth(frame))
                      && overlayDirection == OverlayDirection(translation.x / RectWidth(frame)))
                && (overlayView.Nil? ==> overlayAlpha == old(overlayAlpha) && overlayDirection == old(overlayDirection))
                && reports == old(reports) + [Dragged(DragPercent(translation.x, RectWidth(frame)), DragDirection(translation.x))]
                && acceptsAction == old(acceptsAction) && userInteractionEnabled == old(userInteractionEnabled)
                && originalCenter == old(originalCenter) && rotationDirection == old(rotationDirection)
                && pendingSpringBack == old(pendingSpringBack) && pendingSide == old(pendingSide)
      ensures state in {Ended, Failed, Cancelled} ==>
                ReleasedAs(DetermineDirection(translation.x, margin), screenWidth)
      ensures state == Possible ==>
                && reports == old(reports) && center == old(center) && transform == old(transform)
                && acceptsAction == old(acceptsAction) && userInteractionEnabled == old(userInteractionEnabled)
                && originalCenter == old(originalCenter) && rotationDirection == old(rotationDirection)
                && overlayAlpha == old(overlayAlpha) && overlayDirection == old(overlayDirection)
                && pendingSpringBack == old(pendingSpringBack) && pendingSide == old(pendingSide)
    {
      distance := translation;
      match state {
        case Began => PanBegan(location);
        case Changed => PanChanged();
        case Ended => PanEnded(screenWidth);
        case Failed => PanEnded(screenWidth);
        case Cancelled => PanEnded(screenWidth);
        case Possible =>
      }
    }

    /** The state right after a release whose commit decision is `d`,
      compared with the state before it: a snap-back (reported as released
      at once, busy until the spring ends) or a commit animation towards the
      side (reported when it ends). Placement, slots and the drag's pivot
      are kept either way. */
    twostate predicate ReleasedAs(d: Direction, screenWidth: real)
      reads this
    {
      && frame == old(frame) && margin == old(margin) && number == old(number)
      && originalCenter == old(originalCenter) && rotationDirection == old(rotationDirection)
      && contentView == old(contentView) && overlayView == old(overlayView)
      && !userInteractionEnabled
      && (overlayView.Nil? ==> overlayAlpha == old(overlayAlpha) && overlayDirection == old(overlayDirection))
      && (if d == None then
            && reports == old(reports) + [Released]
            && pendingSpringBack && pendingSide == old(pendingSide)
            && acceptsAction == old(acceptsAction) && center == originalCenter && transform == Identity
            && (overlayView.Some? ==> overlayDirection == None && overlayAlpha == 0.0)
          else
            && reports == old(reports)
            && pendingSide == Some(d) && pendingSpringBack == old(pendingSpringBack)
            && !acceptsAction && center == Point(SideDestinationX(d, screenWidth), originalCenter.y + distance.y)
            && transform == old(transform)
            && (overlayView.Some? ==> overlayDirection == d && overlayAlpha == 1.0))
    }

    method PanBegan(location: Point)
      modifies this
      ensures !acceptsAction && originalCenter == old(center)
      ensures rotationDirection == RotationPivot(RectHeight(frame), location.y)
      ensures reports == old(reports) + [MovementStarted]
      ensures frame == old(frame) && center == old(center) && margin == old(margin) && number == old(number)
      ensures distance == old(distance) && transform == old(transform)
      ensures userInteractionEnabled == old(userInteractionEnabled)
      ensures contentView == old(contentView) && overlayView == old(overlayView)
      ensures overlayAlpha == old(overlayAlpha) && overlayDirection == old(overlayDirection)
      ensures pendingSpringBack == old(pendingSpringBack) && pendingSide == old(pendingSide)
    {
      acceptsAction := false;
      originalCenter := center;
      rotationDirection := RotationPivot(RectHeight(frame), location.y);
      reports := reports + [MovementStarted];
    }

    method PanChanged()
      requires RectWidth(frame) > 0.0
      modifies this
      ensures frame == old(frame)
      ensures var strength := RotationStrength(distance.x, RectWidth(frame));
              transform == DragTransform(strength, rotationDirection, ScaleFor(strength))
      ensures center == Point(originalCenter.x + distance.x, originalCenter.y + distance.y)
      ensures overlayView.Some? ==> overlayAlpha == OverlayStrength(distance.x / RectWidth(frame))
                                    && overlayDirection == OverlayDirection(distance.x / RectWidth(frame))
      ensures overlayView.Nil? ==> overlayAlpha == old(overlayAlpha) && overlayDirection == old(overlayDirection)
      ensures reports == old(reports) + [Dragged(DragPercent(distance.x, RectWidth(frame)), DragDirection(distance.x))]
      ensures frame == old(frame) && margin == old(margin) && number == old(number)
      ensures distance == old(distance) && originalCenter == old(originalCenter)
      ensures acceptsAction == old(acceptsAction) && rotationDirection == old(rotationDirection)
      ensures userInteractionEnabled == old(userInteractionEnabled)
      ensures contentView == old(contentView) && overlayView == old(overlayView)
      ensures pendingSpringBack == old(pendingSpringBack) && pendingSide == old(pendingSide)
    {
      var strength := RotationStrength(distance.x, RectWidth(frame));
      transform := DragTransform(strength, rotationDirection, ScaleFor(strength));
      center := Point(originalCenter.x + distance.x, originalCenter.y + distance.y);
      var percent := DragPercent(distance.x, RectWidth(frame));
      UpdateOverlayWithProgress(distance.x / RectWidth(frame));
      reports := reports + [Dragged(percent, DragDirection(distance.x))];
    }

    method PanEnded(screenWidth: real)
      modifies this
      ensures ReleasedAs(DetermineDirection(distance.x, margin), screenWidth)
      ensures distance == old(distance)
    {
      var direction := DetermineDirection(distance.x, margin);
      if direction == None {
        AnimateToOriginalPlace();
      } else {
        AnimateToSide(direction, screenWidth);
      }
    }

    /** Snap-back: the release is reported before the spring starts; the
      spring's end position and the reset of rotation and overlay are the
      animations' end values. */
    method AnimateToOriginalPlace()
      modifies this
      ensures reports == old(reports) + [Released]
      ensures !userInteractionEnabled && pendingSpringBack && pendingSide == old(pendingSide)
      ensures center == originalCenter && transform == Identity
      ensures overlayView.Some? ==> overlayDirection == None && overlayAlpha == 0.0
      ensures overlayView.Nil? ==> overlayAlpha == old(overlayAlpha) && overlayDirection == old(overlayDirection)
      ensures acceptsAction == old(acceptsAction)
      ensures frame == old(frame) && margin == old(margin) && number == old(number)
      ensures distance == old(distance) && originalCenter == old(originalCenter)
      ensures rotationDirection == old(rotationDirection)
      ensures contentView == old(contentView) && overlayView == old(overlayView)
    {
      userInteractionEnabled := false;
      reports := reports + [Released];
      center := originalCenter;
      pendingSpringBack := true;
      if overlayView.Some? {
        overlayDirection := None;
        overlayAlpha := 0.0;
      }
      transform := Identity;
    }

    /** The spring's completion: the card accepts actions again. */
    method CompleteSpringBack()
      requires pendingSpringBack
      modifies this
      ensures userInteractionEnabled && acceptsAction && !pendingSpringBack
      ensures reports == old(reports) && center == old(center) && transform == old(transform)
      ensures pendingSide == old(pendingSide)
      ensures frame == old(frame) && margin == old(margin) && number == old(number)
      ensures distance == old(distance) && originalCenter == old(originalCenter)
      ensures rotationDirection == old(rotationDirection)
      ensures contentView == old(contentView) && overlayView == old(overlayView)
      ensures overlayAlpha == old(overlayAlpha) && overlayDirection == old(overlayDirection)
    {
      userInteractionEnabled := true;
      acceptsAction := true;
      pendingSpringBack := false;
    }

    method AnimateToSide(direction: Direction, screenWidth: real)
      requires direction != None
      modifies this
      ensures reports == old(reports) && !userInteractionEnabled && !acceptsAction && pendingSide == Some(direction)
      ensures center == Point(SideDestinationX(direction, screenWidth), originalCenter.y + distance.y)
      ensures overlayView.Some? ==> overlayDirection == direction && overlayAlpha == 1.0
      ensures overlayView.Nil? ==> overlayAlpha == old(overlayAlpha) && overlayDirection == old(overlayDirection)
      ensures transform == old(transform) && pendingSpringBack == old(pendingSpringBack)
      ensures frame == old(frame) && margin == old(margin) && number == old(number)
      ensures distance == old(distance) && originalCenter == old(originalCenter)
      ensures rotationDirection == old(rotationDirection)
      ensures contentView == old(contentView) && overlayView == old(overlayView)
    {
      var valueY := originalCenter.y + distance.y;
      var valueX := SideDestinationX(direction, screenWidth);
      Animate(direction);
      center := Point(valueX, valueY);
    }

    /** Starts a commit animation: the card is busy, its overlay fully shows
      the commit direction. */
    method Animate(direction: Direction)
      modifies this
      ensures !userInteractionEnabled && !acceptsAction && pendingSide == Some(direction)
      ensures overlayView.Some? ==> overlayDirection == direction && overlayAlpha == 1.0
      ensures overlayView.Nil? ==> overlayAlpha == old(overlayAlpha) && overlayDirection == old(overlayDirection)
      ensures reports == old(reports) && center == old(center) && transform == old(transform)
      ensures frame == old(frame) && margin == old(margin) && number == old(number)
      ensures distance == old(distance) && originalCenter == old(originalCenter)
      ensures rotationDirection == old(rotationDirection)
      ensures contentView == old(contentView) && overlayView == old(overlayView)
      ensures pendingSpringBack == old(pendingSpringBack)
    {
      userInteractionEnabled := false;
      acceptsAction := false;
      if overlayView.Some? {
        overlayDirection := direction;
        overlayAlpha := 1.0;
      }
      pendingSide := Some(direction);
    }

    /** The commit animation's completion: the card accepts actions again and
      reports the swipe exactly once. */
    method CompleteSideAnimation()
      requires pendingSide.Some?
      modifies this
      ensures reports == old(reports) + [Swiped(old(pendingSide).value)]
      ensures userInteractionEnabled && acceptsAction && pendingSide == Nil
      ensures center == old(center) && transform == old(transform)
      ensures pendingSpringBack == old(pendingSpringBack)
      ensures frame == old(frame) && margin == old(margin) && number == old(number)
      ensures distance == old(distance) && originalCenter == old(originalCenter)
      ensures rotationDirection == old(rotationDirection)
      ensures contentView == old(contentView) && overlayView == old(overlayView)
      ensures overlayAlpha == old(overlayAlpha) && overlayDirection == old(overlayDirection)
    {
      var direction := pendingSide.value;
      userInteractionEnabled := true;
      acceptsAction := true;
      pendingSide := Nil;
      reports := reports + [Swiped(direction)];
    }

    /** The state after a programmatic swipe in `direction`, compared with
      the state before it: when the card accepted actions and the direction
      is Left or Right, it flies to the side at its current height, tilted,
      busy and with the overlay showing the direction; otherwise nothing
      changes. Placement, slots, reports and the drag's fields are kept
      either way. */
    twostate predicate SwipedAs(direction: Direction, screenWidth: real)
      reads this
    {
      && (old(acceptsAction) && direction != None ==>
            && !userInteractionEnabled && !acceptsAction && pendingSide == Some(direction)
            && center == Point(SideDestinationX(direction, screenWidth), old(center).y)
            && transform == Tilted(direction)
            && (overlayView.Some? ==> overlayDirection == direction && overlayAlpha == 1.0)
            && (overlayView.Nil? ==> overlayAlpha == old(overlayAlpha) && overlayDirection == old(overlayDirection)))
      && (!(old(acceptsAction) && direction != None) ==>
            && acceptsAction == old(acceptsAction) && pendingSide == old(pendingSide)
            && center == old(center) && transform == old(transform)
            && userInteractionEnabled == old(userInteractionEnabled)
            && overlayAlpha == old(overlayAlpha) && overlayDirection == old(overlayDirection))
      && reports == old(reports) && frame == old(frame) && margin == old(margin)
      && number == old(number) && distance == old(distance) && originalCenter == old(originalCenter)
      && rotationDirection == old(rotationDirection) && pendingSpringBack == old(pendingSpringBack)
      && contentView == old(contentView) && overlayView == old(overlayView)
    }

    /** Programmatic swipe: acts only when the card accepts actions and the
      direction is Left or Right; the card then flies to the side at its
      current height, tilted, exactly as a committed drag does. */
    method Swipe(direction: Direction, screenWidth: real)
      modifies this
      ensures SwipedAs(direction, screenWidth)
    {
      if acceptsAction && direction != None {
        var modifier := if direction == Left then -1.0 else 2.0;
        var destination := Point(screenWidth * modifier, center.y);
        Animate(direction);
        center := destination;
        transform := Tilted(direction);
      }
    }
  }
}
