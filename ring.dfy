/**
 * Ring activation: the container carries "ring-active" while the pointer is
 * strictly inside the circle inscribed in the white ring's bounding box
 * (its centre and half its width), toggled only on entering and leaving.
 */
module Ring {
  import opened Layout

  /** Half the box's width, the ring's outer radius. */
  function Outer(rect: Rect): real {
    rect.width / 2.0
  }

  /** The ring's centre. */
  function Center(rect: Rect): Point {
    Point(rect.left + rect.width / 2.0, rect.top + rect.height / 2.0)
  }

  /** Squared distance from the ring's centre. */
  function DistSq(p: Point, rect: Rect): (d: real)
    ensures d >= 0.0
  {
    var dx := p.x - Center(rect).x;
    var dy := p.y - Center(rect).y;
    dx * dx + dy * dy
  }

  /** Strictly inside the outer circle, tested without a square root. */
  predicate PointInRing(p: Point, rect: Rect) {
    Outer(rect) > 0.0 && DistSq(p, rect) < Outer(rect) * Outer(rect)
  }

  /**
   * The square-root-free test agrees with `dist < outer` for the Euclidean
   * distance `dist` (the non-negative root of the squared distance).
   */
  lemma PointInRingIsDistance(p: Point, rect: Rect, dist: real)
    requires dist >= 0.0 && dist * dist == DistSq(p, rect)
    ensures PointInRing(p, rect) <==> dist < Outer(rect)
  {
    var o := Outer(rect);
    if dist < o {
      SquareMonotone(dist, o);
    } else if o > 0.0 {
      SquareMonotone(o, dist);
    }
  }

  /** Squaring is monotone on the non-negative reals. */
  lemma SquareMonotone(a: real, b: real)
    requires 0.0 <= a <= b
    ensures a * a <= b * b
    ensures a < b ==> a * a < b * b
  {
    var d := b - a;
    assert b * b == a * a + d * (a + b);
    assert d * (a + b) >= 0.0;
  }

  /** The centre of a box of positive width is inside; its corner never is. */
  lemma CenterInCornerOut(rect: Rect)
    requires rect.width > 0.0 && rect.height > 0.0
    ensures PointInRing(Center(rect), rect)
    ensures !PointInRing(Point(rect.left, rect.top), rect)
  {
    var o := Outer(rect);
    var hy := rect.height / 2.0;
    SquareMonotone(0.0, o);
    assert DistSq(Center(rect), rect) == 0.0;
    assert DistSq(Point(rect.left, rect.top), rect) == o * o + hy * hy;
    assert hy * hy > 0.0;
    assert !(DistSq(Point(rect.left, rect.top), rect) < o * o);
  }

  class RingState {
    var isMouseInRing: bool
    /** The "ring-active" class on the container. */
    var ringActive: bool

    /** The class is present exactly while the pointer was last seen inside. */
    ghost predicate Valid()
      reads this
    {
      ringActive == isMouseInRing
    }

    constructor ()
      ensures Valid() && !isMouseInRing
    {
      isMouseInRing := false;
      ringActive := false;
    }

    /**
     * The document mousemove: re-test the pointer and touch the class list
     * only on a change, adding it on entry and removing it on exit.
     */
    method OnMouseMove(p: Point, rect: Rect) returns (added: bool, removed: bool)
      requires Valid()
      modifies this
      ensures Valid()
      ensures isMouseInRing == PointInRing(p, rect)
      ensures added <==> isMouseInRing && !old(isMouseInRing)
      ensures removed <==> !isMouseInRing && old(isMouseInRing)
    {
      var wasInRing := isMouseInRing;
      isMouseInRing := PointInRing(p, rect);
      added, removed := false, false;
      if isMouseInRing && !wasInRing {
        ringActive := true;
        added := true;
      } else if !isMouseInRing && wasInRing {
        ringActive := false;
        removed := true;
      }
    }
  }
}
