/**
 * Integer rectangles: an axis-aligned box given by its origin (x, y) and its
 * extent (width, height). A rectangle covers the half-open ranges
 * [x, x + width) and [y, y + height); two rectangles intersect when those
 * ranges overlap with positive length on both axes.
 */
module Geometry {

  /** A pair of integers, as returned by `origin()` and `size()`. */
  datatype Point = Point(x: int, y: int)

  /** `Rectangle<int>`; equality is the datatype's structural equality. */
  datatype Rectangle = Rectangle(x: int, y: int, width: int, height: int)

  /** The default-constructed rectangle. */
  function DefaultRectangle(): (r: Rectangle)
    ensures r.x == 0 && r.y == 0 && r.width == 0 && r.height == 0
    ensures forall px: int, py: int :: !Contains(r, px, py)
  {
    Rectangle(0, 0, 0, 0)
  }

  function Min(a: int, b: int): int { if a <= b then a else b }

  function Max(a: int, b: int): int { if a <= b then b else a }

  /** The first x coordinate past the right edge. */
  function Right(r: Rectangle): int { r.x + r.width }

  /** The first y coordinate past the bottom edge. */
  function Bottom(r: Rectangle): int { r.y + r.height }

  function Origin(r: Rectangle): (p: Point)
    ensures Contains(r, p.x, p.y) <==> r.width > 0 && r.height > 0
  {
    Point(r.x, r.y)
  }

  function Size(r: Rectangle): (p: Point)
    ensures Right(r) == Origin(r).x + p.x && Bottom(r) == Origin(r).y + p.y
  {
    Point(r.width, r.height)
  }

  /** Half-open containment: the left and top edges are inside, the right and bottom edges are not. */
  predicate Contains(r: Rectangle, px: int, py: int)
    ensures Contains(r, px, py) ==> r.width > 0 && r.height > 0
  {
    r.x <= px < Right(r) && r.y <= py < Bottom(r)
  }

  /** The two rectangles overlap with positive width and positive height. */
  predicate Intersects(a: Rectangle, b: Rectangle)
    ensures Intersects(a, b) ==> a.width > 0 && a.height > 0 && b.width > 0 && b.height > 0
  {
    Max(a.x, b.x) < Min(Right(a), Right(b)) && Max(a.y, b.y) < Min(Bottom(a), Bottom(b))
  }

  /**
   * The overlap of two rectangles, or the default rectangle when they do not
   * intersect. The result covers exactly the points both operands cover.
   */
  function Intersection(a: Rectangle, b: Rectangle): (r: Rectangle)
    ensures Intersects(a, b) ==> r.width > 0 && r.height > 0
    ensures !Intersects(a, b) ==> r == DefaultRectangle()
    ensures forall px: int, py: int :: Contains(r, px, py) <==> Contains(a, px, py) && Contains(b, px, py)
  {
    if Intersects(a, b) then
      var left, top := Max(a.x, b.x), Max(a.y, b.y);
      Rectangle(left, top, Min(Right(a), Right(b)) - left, Min(Bottom(a), Bottom(b)) - top)
    else
      DefaultRectangle()
  }

  /** Two rectangles intersect exactly when some point lies in both. */
  lemma IntersectsIffCommonPoint(a: Rectangle, b: Rectangle)
    ensures Intersects(a, b) <==> exists px: int, py: int :: Contains(a, px, py) && Contains(b, px, py)
  {
    if Intersects(a, b) {
      var px, py := Max(a.x, b.x), Max(a.y, b.y);
      assert Contains(a, px, py) && Contains(b, px, py);
    }
  }

  /** Intersection does not depend on the order of its operands. */
  lemma IntersectionCommutes(a: Rectangle, b: Rectangle)
    ensures Intersects(a, b) == Intersects(b, a)
    ensures Intersection(a, b) == Intersection(b, a)
  {
  }

  /** A rectangle that meets another only along an edge does not intersect it. */
  lemma EdgeContactDoesNotIntersect(a: Rectangle, b: Rectangle)
    requires Right(b) == a.x || Bottom(b) == a.y || Right(a) == b.x || Bottom(a) == b.y
    ensures !Intersects(a, b) && Intersection(a, b) == DefaultRectangle()
  {
  }

  /** A rectangle with no height or no width intersects nothing, not even a rectangle sharing its origin. */
  lemma EmptyIntersectsNothing(a: Rectangle, b: Rectangle)
    requires a.width <= 0 || a.height <= 0
    ensures !Intersects(a, b) && Intersection(a, b) == DefaultRectangle()
  {
  }

  /** A non-empty rectangle lying inside another intersects it, and the overlap is the inner rectangle itself. */
  lemma NestedIntersectionIsInner(a: Rectangle, b: Rectangle)
    requires a.width > 0 && a.height > 0
    requires b.x <= a.x && Right(a) <= Right(b) && b.y <= a.y && Bottom(a) <= Bottom(b)
    ensures Intersects(a, b) && Intersection(a, b) == a
  {
  }

  /** The `construction`, `defaultConstruction`, `origin` and `size` tests. */
  lemma ConstructionCases()
    ensures var r := Rectangle(1, 2, 3, 4); r.x == 1 && r.y == 2 && r.width == 3 && r.height == 4
    ensures DefaultRectangle() == Rectangle(0, 0, 0, 0)
    ensures Origin(Rectangle(1, 2, 3, 4)) == Point(1, 2)
    ensures Size(Rectangle(1, 2, 3, 4)) == Point(3, 4)
  {
  }

  /** The `contains` test on the rectangle (1, 2, 3, 4). */
  lemma ContainsCases()
    ensures var r := Rectangle(1, 2, 3, 4);
      && Contains(r, 1, 2) && Contains(r, 2, 3)
      && !Contains(r, 5, 10) && !Contains(r, 1, 10) && !Contains(r, 4, 6)
      && !Contains(r, 4, 3) && !Contains(r, 2, 6)
  {
  }

  /** The `intersection` test. */
  lemma IntersectionCases()
    ensures Intersects(Rectangle(1, 2, 3, 4), Rectangle(2, 1, 3, 4))
    ensures Intersects(Rectangle(1, 2, 3, 4), Rectangle(0, 1, 3, 4))
    ensures !Intersects(Rectangle(1, 2, 3, 4), Rectangle(0, 0, 1, 2))
    ensures Intersection(Rectangle(1, 2, 3, 4), Rectangle(0, 0, 1, 2)) == DefaultRectangle()
    ensures Intersects(Rectangle(-1, -2, 3, 4), Rectangle(0, 0, 1, 2))
    ensures !Intersects(Rectangle(-1, -2, 3, 4), Rectangle(10, 10, 1, 2))
    ensures Intersection(Rectangle(-1, -2, 3, 4), Rectangle(10, 10, 1, 2)) == DefaultRectangle()
    ensures Intersection(Rectangle(1, 2, 3, 4), Rectangle(2, 1, 3, 4)) == Rectangle(2, 2, 2, 3)
    ensures !Intersects(Rectangle(270, 760, 500, 0), Rectangle(270, 760, 2000, 600))
    ensures Intersection(Rectangle(270, 760, 500, 0), Rectangle(270, 760, 2000, 600)) == DefaultRectangle()
    ensures Intersection(Rectangle(770, 0, 1130, 500), Rectangle(270, 0, 2230, 1400)) == Rectangle(770, 0, 1130, 500)
  {
  }
}
