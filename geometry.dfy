/** Boxes and the overlap measures that non-maximum suppression compares them by
    (boxIntersection, boxUnion and boxIou of the YOLOv5 detector). */
module Geometry {

  /** A RectF whose corners are whole pixels: the decoder casts every corner to int
      before it builds the rectangle. Nothing forces left <= right or top <= bottom. */
  datatype Rect = Rect(left: int, top: int, right: int, bottom: int)

  /** The corners are in the usual order, so the box has non-negative width and height. */
  predicate WellFormed(r: Rect)
  {
    r.left <= r.right && r.top <= r.bottom
  }

  /** (right - left) * (bottom - top); negative for a box with exactly one side inverted. */
  function Area(r: Rect): int
  {
    (r.right - r.left) * (r.bottom - r.top)
  }

  function Larger(x: int, y: int): int
  {
    if x > y then x else y
  }

  function Smaller(x: int, y: int): int
  {
    if x < y then x else y
  }

  /** Width of the overlap of the two boxes; negative when they are apart horizontally. */
  function OverlapWidth(a: Rect, b: Rect): int
  {
    Smaller(a.right, b.right) - Larger(a.left, b.left)
  }

  /** Height of the overlap of the two boxes; negative when they are apart vertically. */
  function OverlapHeight(a: Rect, b: Rect): int
  {
    Smaller(a.bottom, b.bottom) - Larger(a.top, b.top)
  }

  /** boxIntersection: the overlap area, 0 when the overlap has a negative side. */
  function Intersection(a: Rect, b: Rect): (area: int)
    ensures area >= 0
    ensures OverlapWidth(a, b) < 0 || OverlapHeight(a, b) < 0 ==> area == 0
  {
    var w := OverlapWidth(a, b);
    var h := OverlapHeight(a, b);
    if w < 0 || h < 0 then 0 else MulNonNegative(w, h); w * h
  }

  /** boxUnion: the two areas added, the intersection taken off once. */
  function Union(a: Rect, b: Rect): int
  {
    Area(a) + Area(b) - Intersection(a, b)
  }

  /** boxIou: intersection over union, and 1 whenever the union is not positive. */
  function Iou(a: Rect, b: Rect): real
  {
    var u := Union(a, b);
    if u <= 0 then 1.0 else Intersection(a, b) as real / u as real
  }

  lemma MulNonNegative(x: int, y: int)
    requires x >= 0 && y >= 0
    ensures x * y >= 0
  {
  }

  lemma MulMonotone(x: int, y: int, xBound: int, yBound: int)
    requires 0 <= x <= xBound && 0 <= y <= yBound
    ensures x * y <= xBound * yBound
  {
    assert x * y <= xBound * y;
    assert xBound * y <= xBound * yBound;
  }

  lemma RatioInUnitInterval(i: int, u: int)
    requires 0 <= i <= u && u > 0
    ensures 0.0 <= i as real / u as real <= 1.0
  {
    assert i as real / u as real <= u as real / u as real;
  }

  /** The measure does not depend on the order of its arguments. */
  lemma IouSymmetric(a: Rect, b: Rect)
    ensures Intersection(a, b) == Intersection(b, a)
    ensures Union(a, b) == Union(b, a)
    ensures Iou(a, b) == Iou(b, a)
  {
  }

  /** The overlap of two proper boxes is no larger than either of them. */
  lemma IntersectionWithinEach(a: Rect, b: Rect)
    requires WellFormed(a) && WellFormed(b)
    ensures Intersection(a, b) <= Area(a)
    ensures Intersection(a, b) <= Area(b)
  {
    var w := OverlapWidth(a, b);
    var h := OverlapHeight(a, b);
    var wa, ha := a.right - a.left, a.bottom - a.top;
    var wb, hb := b.right - b.left, b.bottom - b.top;
    assert Area(a) == wa * ha && Area(b) == wb * hb;
    if w >= 0 && h >= 0 {
      MulMonotone(w, h, wa, ha);
      MulMonotone(w, h, wb, hb);
      assert Intersection(a, b) == w * h;
    } else {
      MulNonNegative(wa, ha);
      MulNonNegative(wb, hb);
    }
  }

  /** For proper boxes the measure lies between 0 and 1. */
  lemma IouInUnitInterval(a: Rect, b: Rect)
    requires WellFormed(a) && WellFormed(b)
    ensures 0.0 <= Iou(a, b) <= 1.0
  {
    IntersectionWithinEach(a, b);
    var i := Intersection(a, b);
    var u := Union(a, b);
    if u > 0 {
      MulNonNegative(b.right - b.left, b.bottom - b.top);
      assert 0 <= i <= u;
      RatioInUnitInterval(i, u);
    }
  }

  /** A proper box with positive area overlaps itself completely. */
  lemma IouSelf(a: Rect)
    requires WellFormed(a) && Area(a) > 0
    ensures Iou(a, a) == 1.0
  {
    var area := Area(a);
    assert OverlapWidth(a, a) == a.right - a.left;
    assert OverlapHeight(a, a) == a.bottom - a.top;
    assert Intersection(a, a) == area;
    assert Union(a, a) == area;
    assert area as real / area as real == 1.0;
  }

  /** Any two boxes without area count as fully overlapping, wherever they are:
      their union is not positive, and boxIou then answers 1. */
  lemma ZeroAreaBoxesFullyOverlap(a: Rect, b: Rect)
    requires Area(a) == 0 && Area(b) == 0
    ensures Iou(a, b) == 1.0
  {
  }

  /** Boxes that are apart along one axis, and whose union is positive, do not overlap. */
  lemma SeparatedBoxesDoNotOverlap(a: Rect, b: Rect)
    requires OverlapWidth(a, b) < 0 || OverlapHeight(a, b) < 0
    requires Union(a, b) > 0
    ensures Iou(a, b) == 0.0
  {
  }
}
