/** Value types shared by the card-stack widget: directions, optional values,
    points, rectangles and references to reusable views. */
module KolodaTypes {

  /** Swift's optional: `Nil` is `nil`. */
  datatype Option<T> = Nil | Some(value: T)

  /** The direction of a drag, a commit or an overlay. Left and Right carry
      the raw values -1 and +1 that the rotation arithmetic multiplies by. */
  datatype Direction = None | Left | Right {
    function RawValue(): (w: int)
      ensures -1 <= w <= 1
      ensures w == 0 <==> this == None
      ensures w < 0 <==> this == Left
    {
      match this
      case None => 0
      case Left => -1
      case Right => 1
    }
  }

  datatype Point = Point(x: real, y: real)

  datatype Rect = Rect(x: real, y: real, width: real, height: real)

  const ZeroPoint := Point(0.0, 0.0)
  const ZeroRect := Rect(0.0, 0.0, 0.0, 0.0)

  // CoreGraphics' accessors read a rectangle through its standardised form:
  // a negative width or height extends the rectangle to the left or upwards
  // of its origin.

  /** `CGRectGetWidth`. */
  function RectWidth(r: Rect): (w: real)
    ensures 0.0 <= w
    ensures w == r.width || w == -r.width
  {
    Abs(r.width)
  }

  /** `CGRectGetHeight`. */
  function RectHeight(r: Rect): (h: real)
    ensures 0.0 <= h
    ensures h == r.height || h == -r.height
  {
    Abs(r.height)
  }

  /** `CGRectGetMinX`: the left edge. */
  function RectMinX(r: Rect): (x: real)
    ensures x <= r.x && x <= r.x + r.width
    ensures x == r.x || x == r.x + r.width
  {
    if r.width < 0.0 then r.x + r.width else r.x
  }

  /** `CGRectGetMinY`: the top edge. */
  function RectMinY(r: Rect): (y: real)
    ensures y <= r.y && y <= r.y + r.height
    ensures y == r.y || y == r.y + r.height
  {
    if r.height < 0.0 then r.y + r.height else r.y
  }

  /** The rectangle covering the same points with a non-negative size; a
      rectangle with a non-negative size is its own standardised form. */
  function Standardized(r: Rect): (s: Rect)
    ensures 0.0 <= s.width && 0.0 <= s.height
    ensures s.width == RectWidth(r) && s.height == RectHeight(r)
    ensures s.x == MinReal(r.x, r.x + r.width) && s.y == MinReal(r.y, r.y + r.height)
    ensures s.x + s.width == MaxReal(r.x, r.x + r.width)
    ensures s.y + s.height == MaxReal(r.y, r.y + r.height)
    ensures 0.0 <= r.width && 0.0 <= r.height ==> s == r
  {
    Rect(RectMinX(r), RectMinY(r), RectWidth(r), RectHeight(r))
  }

  /** Who allocated an object: the recycler (class or nib instantiation), the
      stack controller directly, or the host application (content and overlay
      views handed over by the data source). The serial tells objects of one
      allocator apart. */
  datatype ObjectId = ByRecycler(serial: nat) | ByStack(serial: nat) | ByHost(serial: nat)

  /** A reusable view, identified by its object identity; `identifier` is the
      reuse identifier the view carries itself. */
  datatype View = View(id: ObjectId, identifier: string)

  function Min(a: int, b: int): (m: int)
    ensures m <= a && m <= b
    ensures m == a || m == b
  {
    if a < b then a else b
  }

  function MinReal(a: real, b: real): (m: real)
    ensures m <= a && m <= b
    ensures m == a || m == b
  {
    if a < b then a else b
  }

  function MaxReal(a: real, b: real): (m: real)
    ensures a <= m && b <= m
    ensures m == a || m == b
  {
    if a < b then b else a
  }

  function Abs(a: real): (r: real)
    ensures 0.0 <= r
    ensures r == a || r == -a
  {
    if a < 0.0 then -a else a
  }

  /** The largest integer not above `a`, as a real (CoreGraphics' floor). */
  function Floor(a: real): (r: real)
    ensures r <= a < r + 1.0
    ensures r.Floor as real == r
  {
    a.Floor as real
  }
}
