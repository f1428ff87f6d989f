/** The stack geometry: the resting frame of the card at each window position
    and the interpolation that slides a background card towards the frame of
    the card ahead of it while the front card is dragged. */
module KolodaGeometry {
  import opened KolodaTypes

  /** Visual settings of the widget (a constant table in the source). */
  const BackgroundCardsTopMargin: real := 4.0
  const BackgroundCardsLeftMargin: real := 8.0
  const BackgroundCardsScalePercent: real := 0.95

  /** `base` raised to a natural power. */
  function Pow(base: real, n: nat): real
  {
    if n == 0 then 1.0 else base * Pow(base, n - 1)
  }

  /** The powers of the scale percent are positive, at most one, and strictly
      decreasing. */
  lemma {:induction false} ScalePowerBounds(n: nat)
    ensures 0.0 < Pow(BackgroundCardsScalePercent, n) <= 1.0
    ensures n > 0 ==> Pow(BackgroundCardsScalePercent, n)
                      < Pow(BackgroundCardsScalePercent, n - 1)
  {
    if n > 0 {
      ScalePowerBounds(n - 1);
    }
  }

  /** The height every card is scaled from: the container's height less the
      room the background cards stick out below the front card. */
  function StackHeight(height: real, countOfVisibleCards: nat): real
  {
    height - BackgroundCardsTopMargin * ((countOfVisibleCards as int - 1) as real)
  }

  /** The resting frame of the card at window position `index` in a container
      whose standardised width and height (never negative) are `width` and
      `height`. Card 0 fills the container's width at the origin; card
      `index` is scaled by `scalePercent^index`, shifted right by
      `leftMargin * index`, and placed `topMargin` below the standardised
      height of card `index - 1` plus that card's raw `y`, so a previous card
      of negative height counts by its magnitude. */
  function FrameForCardAtIndex(index: nat, width: real, height: real, countOfVisibleCards: nat): (r: Rect)
    ensures index == 0 ==> r == Rect(0.0, 0.0, width, StackHeight(height, countOfVisibleCards))
  {
    var bottomOffset := 0.0;
    var topOffset := BackgroundCardsTopMargin * ((countOfVisibleCards as int - 1) as real);
    var xOffset := BackgroundCardsLeftMargin * (index as real);
    var cardWidth := width * Pow(BackgroundCardsScalePercent, index);
    var cardHeight := (height - bottomOffset - topOffset) * Pow(BackgroundCardsScalePercent, index);
    var multiplier := if 0 < index then 1.0 else 0.0;
    var previous := if 0 < index then FrameForCardAtIndex(index - 1, width, height, countOfVisibleCards) else ZeroRect;
    var yOffset := (RectHeight(previous) - cardHeight + previous.y + BackgroundCardsTopMargin) * multiplier;
    Rect(xOffset, yOffset, cardWidth, cardHeight)
  }

  /** Each background card is the previous card shrunk by exactly the scale
      percent and shifted right by the left margin; its bottom edge lies one
      top margin below the previous card's `y` plus standardised height. */
  lemma FrameStacksOnPrevious(index: nat, width: real, height: real, count: nat)
    requires index > 0
    ensures var r := FrameForCardAtIndex(index, width, height, count);
            var p := FrameForCardAtIndex(index - 1, width, height, count);
            && r.x == p.x + BackgroundCardsLeftMargin
            && r.width == p.width * BackgroundCardsScalePercent
            && r.height == p.height * BackgroundCardsScalePercent
            && r.y + r.height == p.y + RectHeight(p) + BackgroundCardsTopMargin
  {
  }

  /** Card `index` sits `leftMargin * index` from the left and has the
      container's width and stack height scaled by `scalePercent^index`. */
  lemma FrameClosedForm(index: nat, width: real, height: real, count: nat)
    ensures var r := FrameForCardAtIndex(index, width, height, count);
            && r.x == BackgroundCardsLeftMargin * (index as real)
            && r.width == width * Pow(BackgroundCardsScalePercent, index)
            && r.height == StackHeight(height, count) * Pow(BackgroundCardsScalePercent, index)
  {
  }

  /** In a container tall enough for the stack, the bottom edge of card
      `index` is `topMargin * index` below the front card's bottom edge, so
      its top edge is the part of the stack height it lost to the scaling
      plus those margins. */
  lemma {:induction false} FrameBottomEdge(index: nat, width: real, height: real, count: nat)
    requires 0.0 <= StackHeight(height, count)
    ensures var r := FrameForCardAtIndex(index, width, height, count);
            r.y + r.height == StackHeight(height, count) + BackgroundCardsTopMargin * (index as real)
    ensures var r := FrameForCardAtIndex(index, width, height, count);
            r.y == StackHeight(height, count) * (1.0 - Pow(BackgroundCardsScalePercent, index))
                   + BackgroundCardsTopMargin * (index as real)
  {
    FrameClosedForm(index, width, height, count);
    if index > 0 {
      FrameBottomEdge(index - 1, width, height, count);
      FrameStacksOnPrevious(index, width, height, count);
      FrameClosedForm(index - 1, width, height, count);
      ScalePowerBounds(index - 1);
      NonNegativeProduct(StackHeight(height, count), Pow(BackgroundCardsScalePercent, index - 1));
    }
  }

  lemma NonNegativeProduct(a: real, b: real)
    requires 0.0 <= a && 0.0 <= b
    ensures 0.0 <= a * b
  {
  }

  /** In a container tall enough for the stack every resting frame has a
      non-negative size, so it is its own standardised form. */
  lemma FrameNonNegative(index: nat, width: real, height: real, count: nat)
    requires 0.0 <= width && 0.0 <= StackHeight(height, count)
    ensures var r := FrameForCardAtIndex(index, width, height, count);
            0.0 <= r.width && 0.0 <= r.height && Standardized(r) == r
  {
    FrameClosedForm(index, width, height, count);
    ScalePowerBounds(index);
    NonNegativeProduct(width, Pow(BackgroundCardsScalePercent, index));
    NonNegativeProduct(StackHeight(height, count), Pow(BackgroundCardsScalePercent, index));
  }

  /** In a container shorter than the stack's margins the heights are
      negative and the standardisation shows: in a zero-sized container the
      second card sits at y = 8 + 7.6 + 4. */
  lemma ShortContainerFrame()
    ensures FrameForCardAtIndex(0, 0.0, 0.0, 3) == Rect(0.0, 0.0, 0.0, -8.0)
    ensures FrameForCardAtIndex(1, 0.0, 0.0, 3) == Rect(8.0, 19.6, 0.0, -7.6)
  {
    assert Pow(BackgroundCardsScalePercent, 1) == 0.95;
  }

  /** With a non-degenerate container every background card is strictly
      narrower and shorter than the card ahead of it, and lower down. */
  lemma FrameShrinks(index: nat, width: real, height: real, count: nat)
    requires index > 0
    requires width > 0.0 && StackHeight(height, count) > 0.0
    ensures var r := FrameForCardAtIndex(index, width, height, count);
            var p := FrameForCardAtIndex(index - 1, width, height, count);
            && r.width < p.width
            && r.height < p.height
            && r.y + r.height > p.y + p.height
  {
    FrameStacksOnPrevious(index, width, height, count);
    FrameClosedForm(index - 1, width, height, count);
    ScalePowerBounds(index - 1);
    PositiveProduct(width, Pow(BackgroundCardsScalePercent, index - 1));
    PositiveProduct(StackHeight(height, count), Pow(BackgroundCardsScalePercent, index - 1));
  }

  lemma PositiveProduct(a: real, b: real)
    requires 0.0 < a && 0.0 < b
    ensures 0.0 < a * b
  {
  }

  /** The frame `percent` of the way from `current` to `previous`: a linear
      interpolation of the standardised origin and size. */
  function CalculateFrame(current: Rect, previous: Rect, percent: real): (r: Rect)
    ensures percent == 0.0 ==> r == Standardized(current)
    ensures percent == 100.0 ==> r == Standardized(previous)
    ensures 0.0 <= percent <= 100.0 ==>
              Between(r.x, RectMinX(current), RectMinX(previous)) && Between(r.y, RectMinY(current), RectMinY(previous))
              && Between(r.width, RectWidth(current), RectWidth(previous))
              && Between(r.height, RectHeight(current), RectHeight(previous))
  {
    var t := percent / 100.0;
    Rect(Rise(RectMinX(current), RectMinX(previous), t),
         Fall(RectMinY(current), RectMinY(previous), t),
         Rise(RectWidth(current), RectWidth(previous), t),
         Rise(RectHeight(current), RectHeight(previous), t))
  }

  /** `u` moved the fraction `t` of the way to `v` by adding the movement. */
  function Rise(u: real, v: real, t: real): (w: real)
    ensures t == 0.0 ==> w == u
    ensures t == 1.0 ==> w == v
    ensures 0.0 <= t <= 1.0 ==> Between(w, u, v)
  {
    if 0.0 <= t <= 1.0 then
      LerpBetween(u, v, t);
      u + (v - u) * t
    else
      u + (v - u) * t
  }

  /** `u` moved the fraction `t` of the way to `v` by subtracting the
      movement in the opposite direction. */
  function Fall(u: real, v: real, t: real): (w: real)
    ensures t == 0.0 ==> w == u
    ensures t == 1.0 ==> w == v
    ensures 0.0 <= t <= 1.0 ==> Between(w, u, v)
  {
    if 0.0 <= t <= 1.0 then
      LerpBetween(u, v, t);
      u - (u - v) * t
    else
      u - (u - v) * t
  }

  /** The interpolation is linear in the percentage: moving the percentage by
      `a - b` moves every coordinate by that fraction of a hundred of the
      distance between the two standardised frames. */
  lemma CalculateFrameIsLinear(current: Rect, previous: Rect, a: real, b: real)
    ensures var ra := CalculateFrame(current, previous, a);
            var rb := CalculateFrame(current, previous, b);
            && ra.x - rb.x == (RectMinX(previous) - RectMinX(current)) * ((a - b) / 100.0)
            && ra.y - rb.y == (RectMinY(previous) - RectMinY(current)) * ((a - b) / 100.0)
            && ra.width - rb.width == (RectWidth(previous) - RectWidth(current)) * ((a - b) / 100.0)
            && ra.height - rb.height == (RectHeight(previous) - RectHeight(current)) * ((a - b) / 100.0)
  {
    LerpDifference(RectMinX(current), RectMinX(previous), a, b);
    LerpDifference(RectMinY(current), RectMinY(previous), a, b);
    LerpDifference(RectWidth(current), RectWidth(previous), a, b);
    LerpDifference(RectHeight(current), RectHeight(previous), a, b);
  }

  lemma LerpDifference(u: real, v: real, a: real, b: real)
    ensures Rise(u, v, a / 100.0) - Rise(u, v, b / 100.0) == (v - u) * ((a - b) / 100.0)
    ensures Fall(u, v, a / 100.0) - Fall(u, v, b / 100.0) == (v - u) * ((a - b) / 100.0)
  {
  }

  /** `v` lies between `a` and `b`, in either order. */
  predicate Between(v: real, a: real, b: real)
  {
    (a <= v <= b) || (b <= v <= a)
  }

  lemma LerpBetween(a: real, b: real, t: real)
    requires 0.0 <= t <= 1.0
    ensures Between(a + (b - a) * t, a, b)
    ensures Between(a - (a - b) * t, a, b)
  {
    if a <= b {
      AddRiseBetween(a, b, t);
      SubtractFallBetween(a, b, t);
    } else {
      AddFallBetween(a, b, t);
      SubtractRiseBetween(a, b, t);
    }
  }

  lemma AddRiseBetween(a: real, b: real, t: real)
    requires 0.0 <= t <= 1.0 && a <= b
    ensures a <= a + (b - a) * t <= b
  {
  }

  lemma AddFallBetween(a: real, b: real, t: real)
    requires 0.0 <= t <= 1.0 && b <= a
    ensures b <= a + (b - a) * t <= a
  {
  }

  lemma SubtractFallBetween(a: real, b: real, t: real)
    requires 0.0 <= t <= 1.0 && a <= b
    ensures a <= a - (a - b) * t <= b
  {
  }

  lemma SubtractRiseBetween(a: real, b: real, t: real)
    requires 0.0 <= t <= 1.0 && b <= a
    ensures b <= a - (a - b) * t <= a
  {
  }
}
