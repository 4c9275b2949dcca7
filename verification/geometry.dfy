/**
 Integer rectangle geometry: the part of pygame's `Rect` the game relies on,
 and the four-probe "which side did I touch" classification of `collision_sides`.

 Library assumption: `Rect.colliderect` is strict overlap of the half-open
 boxes [x, x+w) x [y, y+h). For rectangles of positive size this is exactly
 pygame's test; the probes below have positive size when the probed rectangle
 is at least 3 by 3 (`ProperProbes`).
 */
module Geometry {

  datatype Rect = Rect(x: int, y: int, w: int, h: int)

  /** pygame `Rect.colliderect`, as assumed above. */
  predicate Overlaps(a: Rect, b: Rect) {
    a.x < b.x + b.w && b.x < a.x + a.w && a.y < b.y + b.h && b.y < a.y + a.h
  }

  /** pygame stores integer coordinates: a float argument is truncated toward zero. */
  function Trunc(r: real): (n: int)
    ensures r >= 0.0 ==> 0 <= n && n as real <= r < n as real + 1.0
    ensures r < 0.0 ==> n <= 0 && n as real - 1.0 < r <= n as real
  {
    if r >= 0.0 then r.Floor else -((-r).Floor)
  }

  lemma TruncOfInt(n: int)
    ensures Trunc(n as real) == n
  {
  }

  /** `Rect(x, y, w, h)` built from a real-valued position. */
  function RectAt(x: real, y: real, w: int, h: int): (r: Rect)
    ensures r.w == w && r.h == h
    ensures x >= 0.0 ==> r.x as real <= x < r.x as real + 1.0
    ensures y >= 0.0 ==> r.y as real <= y < r.y as real + 1.0
    ensures x < 0.0 ==> r.x as real - 1.0 < x <= r.x as real
    ensures y < 0.0 ==> r.y as real - 1.0 < y <= r.y as real
  {
    Rect(Trunc(x), Trunc(y), w, h)
  }

  /** The four side flags of a contact; several may hold at once. */
  datatype Sides = Sides(left: bool, right: bool, top: bool, bottom: bool)

  const NoSides := Sides(false, false, false, false)

  /** 1-wide strip on the left edge, inset by one row at top and bottom. */
  function LeftProbe(a: Rect): Rect { Rect(a.x, a.y + 1, 1, a.h - 2) }

  /** 1-wide strip just right of the right edge, same inset. */
  function RightProbe(a: Rect): Rect { Rect(a.x + a.w, a.y + 1, 1, a.h - 2) }

  /** 1-tall strip on the top edge, inset by one column at each end. */
  function TopProbe(a: Rect): Rect { Rect(a.x + 1, a.y, a.w - 2, 1) }

  /** 1-tall strip just below the bottom edge, same inset. */
  function BottomProbe(a: Rect): Rect { Rect(a.x + 1, a.y + a.h, a.w - 2, 1) }

  /** Probes of positive size, where the assumed overlap agrees with pygame. */
  predicate ProperProbes(a: Rect) {
    a.w >= 3 && a.h >= 3
  }

  /**
   `collision_sides` for an integer rectangle `a`: a side flag is set exactly
   when `b` covers the column (or row) that side's probe lies on and `b`
   reaches into the inset span along the other axis.
   */
  function SidesOf(a: Rect, b: Rect): (s: Sides)
    ensures s.left <==>
      b.x <= a.x < b.x + b.w && b.y < a.y + a.h - 1 && a.y + 1 < b.y + b.h
    ensures s.right <==>
      b.x <= a.x + a.w < b.x + b.w && b.y < a.y + a.h - 1 && a.y + 1 < b.y + b.h
    ensures s.top <==>
      b.y <= a.y < b.y + b.h && b.x < a.x + a.w - 1 && a.x + 1 < b.x + b.w
    ensures s.bottom <==>
      b.y <= a.y + a.h < b.y + b.h && b.x < a.x + a.w - 1 && a.x + 1 < b.x + b.w
  {
    Sides(Overlaps(LeftProbe(a), b), Overlaps(RightProbe(a), b),
          Overlaps(TopProbe(a), b), Overlaps(BottomProbe(a), b))
  }

  /** `b` touches `a` at exactly one corner point of `a`'s outline. */
  predicate TouchesAtCorner(a: Rect, b: Rect) {
    || (b.x == a.x + a.w && b.y == a.y + a.h)   // below right
    || (b.x + b.w == a.x && b.y == a.y + a.h)   // below left
    || (b.x == a.x + a.w && b.y + b.h == a.y)   // above right
    || (b.x + b.w == a.x && b.y + b.h == a.y)   // above left
  }

  /** The inset keeps a pure corner contact from reporting any side. */
  lemma CornerTouchHasNoSides(a: Rect, b: Rect)
    requires a.w > 0 && a.h > 0 && b.w > 0 && b.h > 0
    requires TouchesAtCorner(a, b)
    ensures SidesOf(a, b) == NoSides
  {
  }

  /** `b` lies against `a`'s left edge and spans all of it. */
  predicate SharesLeftEdge(a: Rect, b: Rect) {
    b.x + b.w == a.x && b.y <= a.y && a.y + a.h <= b.y + b.h
  }

  predicate SharesRightEdge(a: Rect, b: Rect) {
    b.x == a.x + a.w && b.y <= a.y && a.y + a.h <= b.y + b.h
  }

  predicate SharesTopEdge(a: Rect, b: Rect) {
    b.y + b.h == a.y && b.x <= a.x && a.x + a.w <= b.x + b.w
  }

  predicate SharesBottomEdge(a: Rect, b: Rect) {
    b.y == a.y + a.h && b.x <= a.x && a.x + a.w <= b.x + b.w
  }

  /**
   A neighbour standing against a full edge is reported on that side only.
   The left and top probes lie inside `a`, so a neighbour flush against the
   left or top edge is not reported at all; the right and bottom probes lie
   just outside `a` and do see a flush neighbour.
   */
  lemma FullEdgeContact(a: Rect, b: Rect)
    requires ProperProbes(a) && b.w > 0 && b.h > 0
    ensures SharesRightEdge(a, b) ==> SidesOf(a, b) == Sides(false, true, false, false)
    ensures SharesBottomEdge(a, b) ==> SidesOf(a, b) == Sides(false, false, false, true)
    ensures SharesLeftEdge(a, b) ==> SidesOf(a, b) == NoSides
    ensures SharesTopEdge(a, b) ==> SidesOf(a, b) == NoSides
  {
  }

  /** A neighbour overlapping `a`'s leftmost column over a full edge is reported on the left only. */
  lemma LeftColumnContact(a: Rect, b: Rect)
    requires ProperProbes(a) && b.w > 0 && b.h > 0
    requires b.x + b.w == a.x + 1 && b.y <= a.y && a.y + a.h <= b.y + b.h
    ensures SidesOf(a, b) == Sides(true, false, false, false)
  {
  }

  /** A neighbour overlapping `a`'s top row over a full edge is reported on the top only. */
  lemma TopRowContact(a: Rect, b: Rect)
    requires ProperProbes(a) && b.w > 0 && b.h > 0
    requires b.y + b.h == a.y + 1 && b.x <= a.x && a.x + a.w <= b.x + b.w
    ensures SidesOf(a, b) == Sides(false, false, true, false)
  {
  }

  /** Any flag implies the rectangles, with `a` widened by one pixel right and down, overlap. */
  lemma SideImpliesNear(a: Rect, b: Rect)
    requires ProperProbes(a)
    requires SidesOf(a, b) != NoSides
    ensures Overlaps(Rect(a.x, a.y, a.w + 1, a.h + 1), b)
  {
  }
}
