/** Axis-aligned boxes, points and line segments (CoreTypes). */
module Geometry {

  function Min(a: int, b: int): int { if a <= b then a else b }
  function Max(a: int, b: int): int { if a >= b then a else b }

  datatype Point2D = Point2D(x: int, y: int)

  /** A detected line segment. `start.y <= end.y` is the detector's invariant;
      the floating-point fields are modelled as exact reals. */
  datatype Segment = Segment(start: Point2D, end: Point2D, width: real, nfa: real, length: real, angle: real)
  {
    predicate TopDown() { start.y <= end.y }
  }

  /** A box with top-left origin (x, y); the covered pixels are [x, x+width) x [y, y+height). */
  datatype Box = Box(x: int, y: int, width: int, height: int)
  {
    function X1(): int { x + width }
    function Y1(): int { y + height }
  }

  /** `outer` covers `inner` coordinate-wise (used for the arena invariants). */
  predicate Contains(outer: Box, inner: Box)
  {
    outer.x <= inner.x && inner.X1() <= outer.X1() && outer.y <= inner.y && inner.Y1() <= outer.Y1()
  }

  lemma ContainsTransitive(a: Box, b: Box, c: Box)
    requires Contains(a, b) && Contains(b, c)
    ensures Contains(a, c)
  {}

  // ----- Box::merge -----------------------------------------------------------

  /** Box::merge: the smallest box whose corners enclose both boxes. */
  function Merge(b: Box, o: Box): (r: Box)
    ensures Contains(r, b) && Contains(r, o)
    ensures forall c: Box :: Contains(c, b) && Contains(c, o) ==> Contains(c, r)
    ensures r.x == b.x || r.x == o.x
    ensures r.Y1() == b.Y1() || r.Y1() == o.Y1()
  {
    var x0 := Min(b.x, o.x);
    var y0 := Min(b.y, o.y);
    var x1 := Max(b.X1(), o.X1());
    var y1 := Max(b.Y1(), o.Y1());
    Box(x0, y0, x1 - x0, y1 - y0)
  }

  lemma MergeCoversPoints(b: Box, o: Box, p: Point2D)
    requires Has(b, p) || Has(o, p)
    ensures Has(Merge(b, o), p)
  {}

  // ----- Box::inflate ---------------------------------------------------------

  /** Box::inflate(k): grow (or, for k < 0, shrink) by k on every side,
      never letting a dimension drop below 0. */
  function Inflate(b: Box, k: int): (r: Box)
    ensures r.width >= 0 && r.height >= 0
    ensures r.x == b.x - k && r.y == b.y - k
    ensures b.width + 2 * k >= 0 ==> r.X1() == b.X1() + k
    ensures b.height + 2 * k >= 0 ==> r.Y1() == b.Y1() + k
    ensures b.width + 2 * k <= 0 || b.height + 2 * k <= 0 ==> Empty(r)
    ensures b.width + 2 * k <= 0 ==> r.width == 0
    ensures b.height + 2 * k <= 0 ==> r.height == 0
  {
    Box(b.x - k, b.y - k, Max(0, b.width + 2 * k), Max(0, b.height + 2 * k))
  }

  /** Growing a box of non-negative size keeps every one of its points. */
  lemma InflateGrows(b: Box, k: int, p: Point2D)
    requires k >= 0 && b.width >= 0 && b.height >= 0
    ensures Contains(Inflate(b, k), b)
    ensures Has(b, p) ==> Has(Inflate(b, k), p)
  {}

  /** Shrinking undoes growing while no dimension was clamped. */
  lemma InflateRoundTrip(b: Box, k: int)
    requires b.width >= 0 && b.height >= 0
    requires b.width + 2 * k >= 0 && b.height + 2 * k >= 0
    ensures Inflate(Inflate(b, k), -k) == b
  {}

  /** A point of the box shrunk by k >= 0 is at least k away from every border. */
  lemma DeflatedPointIsInner(b: Box, k: int, p: Point2D)
    requires k >= 0
    requires Has(Inflate(b, -k), p)
    ensures Has(b, p)
    ensures b.x + k <= p.x < b.X1() - k && b.y + k <= p.y < b.Y1() - k
  {}

  // ----- Box::has / empty / is_valid ---------------------------------------

  /** Box::has(Point2D): half-open membership. */
  predicate Has(b: Box, p: Point2D)
  {
    b.x <= p.x < b.x + b.width && b.y <= p.y < b.y + b.height
  }

  /** Box::has(Segment): both end-points are in the box. */
  predicate HasSegment(b: Box, s: Segment)
  {
    Has(b, s.start) && Has(b, s.end)
  }

  /** Box::empty */
  predicate Empty(b: Box)
  {
    b.width <= 0 || b.height <= 0
  }

  /** Box::is_valid */
  predicate IsValid(b: Box)
  {
    b.width > 0 && b.height > 0 && b.x >= 0 && b.y >= 0
  }

  /** An empty box holds no point and a box holding a point is not empty. */
  lemma EmptyIffNoPoint(b: Box)
    ensures Empty(b) <==> forall p: Point2D :: !Has(b, p)
  {
    if !Empty(b) {
      assert Has(b, Point2D(b.x, b.y));
    }
  }

  lemma ValidIsNotEmpty(b: Box)
    requires IsValid(b)
    ensures !Empty(b) && Has(b, Point2D(b.x, b.y))
  {}

  /** Contained boxes keep their points inside the container. */
  lemma ContainsHas(outer: Box, inner: Box, p: Point2D)
    requires Contains(outer, inner) && Has(inner, p)
    ensures Has(outer, p)
  {}

  // ----- Box::intersects ----------------------------------------------------

  /** Half-open overlap of [a1, a2) and [b1, b2), as in the anonymous helper. */
  predicate RangesIntersect(a1: int, a2: int, b1: int, b2: int)
  {
    !(a2 <= b1 || b2 <= a1)
  }

  /** Box::intersects as written: the x-ranges OR the y-ranges overlap. */
  predicate IntersectsAsWritten(b: Box, o: Box)
  {
    RangesIntersect(b.x, b.X1(), o.x, o.X1()) || RangesIntersect(b.y, b.Y1(), o.y, o.Y1())
  }

  /** Two boxes that share no point but are reported as intersecting. */
  lemma IntersectsAsWrittenCounterexample()
    ensures var b, o := Box(0, 0, 1, 1), Box(5, 0, 1, 1);
      IntersectsAsWritten(b, o) && !(exists p: Point2D :: Has(b, p) && Has(o, p))
  {
    var b, o := Box(0, 0, 1, 1), Box(5, 0, 1, 1);
    forall p: Point2D ensures !(Has(b, p) && Has(o, p)) {}
  }

  /** The intended box intersection: both ranges overlap. */
  predicate Intersects(b: Box, o: Box)
  {
    RangesIntersect(b.x, b.X1(), o.x, o.X1()) && RangesIntersect(b.y, b.Y1(), o.y, o.Y1())
  }

  /** For non-empty boxes the corrected intersection holds exactly when they share a point. */
  lemma IntersectsIffCommonPoint(b: Box, o: Box)
    requires !Empty(b) && !Empty(o)
    ensures Intersects(b, o) <==> exists p: Point2D :: Has(b, p) && Has(o, p)
  {
    if Intersects(b, o) {
      var p := Point2D(Max(b.x, o.x), Max(b.y, o.y));
      assert Has(b, p) && Has(o, p);
    }
  }

  // ----- Segment::is_horizontal / is_vertical -------------------------------

  function Abs(r: real): real { if r < 0.0 then -r else r }

  /** Segment::is_horizontal: the angle folded into [0, 90] is below the tolerance. */
  predicate IsHorizontal(s: Segment, tolerance: real)
  {
    (if s.angle <= 90.0 then s.angle else 180.0 - s.angle) < tolerance
  }

  /** Segment::is_vertical: the angle is within the tolerance of 90 degrees. */
  predicate IsVertical(s: Segment, tolerance: real)
  {
    Abs(s.angle - 90.0) < tolerance
  }

  /** With a tolerance of at most 45 degrees no segment is both horizontal and vertical. */
  lemma HorizontalVerticalExclusive(s: Segment, tolerance: real)
    requires 0.0 <= s.angle <= 180.0 && tolerance <= 45.0
    ensures !(IsHorizontal(s, tolerance) && IsVertical(s, tolerance))
  {}

  /** Orientation is symmetric under s.angle -> 180 - s.angle. */
  lemma OrientationMirror(s: Segment, tolerance: real)
    requires 0.0 <= s.angle <= 180.0
    ensures IsHorizontal(s, tolerance) == IsHorizontal(s.(angle := 180.0 - s.angle), tolerance)
    ensures IsVertical(s, tolerance) == IsVertical(s.(angle := 180.0 - s.angle), tolerance)
  {}
}
