/**
 * HitBox.java: an integer axis-aligned rectangle whose intersection test
 * counts touching edges as intersecting.
 */
module Geometry {
  /** A rectangle as a value: position and size. */
  datatype Rect = Rect(x: int, y: int, width: int, height: int)

  /** java.awt.Point, as far as getLocation uses it. */
  datatype Point = Point(x: int, y: int)

  /** intersects(x, y, width, height) of a box with bounds `a`: closed intervals overlap on both axes. */
  predicate Overlaps(a: Rect, b: Rect)
    ensures Overlaps(a, b) && a.width >= 0 && a.height >= 0 && b.width >= 0 && b.height >= 0 ==>
      var corner := Point(if a.x < b.x then b.x else a.x, if a.y < b.y then b.y else a.y);
      Covers(a, corner) && Covers(b, corner)
  {
    a.x <= b.x + b.width && a.x + a.width >= b.x &&
    a.y <= b.y + b.height && a.y + a.height >= b.y
  }

  /** Whether the closed rectangle `r` (of non-negative size) covers `p`. */
  predicate Covers(r: Rect, p: Point) {
    r.x <= p.x <= r.x + r.width && r.y <= p.y <= r.y + r.height
  }

  /** The test does not depend on which box asks. */
  lemma OverlapsSymmetric(a: Rect, b: Rect)
    ensures Overlaps(a, b) <==> Overlaps(b, a)
  {
  }

  /** A box of non-negative size intersects itself. */
  lemma OverlapsSelf(a: Rect)
    requires a.width >= 0 && a.height >= 0
    ensures Overlaps(a, a)
  {
  }

  /** Boxes that only share an edge (b starts where a ends) still intersect. */
  lemma TouchingEdgesOverlap(a: Rect, b: Rect)
    requires a.width >= 0 && b.width >= 0 && a.height >= 0 && b.height >= 0
    requires b.x == a.x + a.width && b.y == a.y
    ensures Overlaps(a, b)
  {
  }

  /**
   * For boxes of non-negative size the test is exactly "some point lies in both
   * closed rectangles"; the corner (max x, max y) is such a point when they overlap.
   */
  lemma OverlapsMeansCommonPoint(a: Rect, b: Rect)
    requires a.width >= 0 && a.height >= 0 && b.width >= 0 && b.height >= 0
    ensures Overlaps(a, b) <==> exists p: Point :: Covers(a, p) && Covers(b, p)
  {
    if Overlaps(a, b) {
      var p := Point(if a.x < b.x then b.x else a.x, if a.y < b.y then b.y else a.y);
      assert Covers(a, p) && Covers(b, p);
    }
  }

  /** A mutable hit box (HitBox). `visible` is its Renderable flag, off by default. */
  class HitBox {
    var x: int
    var y: int
    var width: int
    var height: int
    var visible: bool

    constructor (x: int, y: int, width: int, height: int)
      ensures this.x == x && this.y == y && this.width == width && this.height == height
      ensures !visible
    {
      this.x := x;
      this.y := y;
      this.width := width;
      this.height := height;
      visible := false;
    }

    function Bounds(): Rect
      reads this
    {
      Rect(x, y, width, height)
    }

    /** intersects(x, y, width, height). */
    predicate Intersects(x: int, y: int, width: int, height: int)
      reads this
      ensures Intersects(x, y, width, height) <==> Overlaps(Rect(x, y, width, height), Bounds())
    {
      Overlaps(Bounds(), Rect(x, y, width, height))
    }

    /** intersects(HitBox): the other box's four fields, passed on. */
    predicate IntersectsBox(other: HitBox)
      reads this, other
      ensures IntersectsBox(other) <==> Overlaps(Bounds(), other.Bounds())
    {
      Intersects(other.x, other.y, other.width, other.height)
    }

    /** resize: only width and height change. */
    method Resize(width: int, height: int)
      modifies this`width, this`height
      ensures this.width == width && this.height == height
    {
      this.width := width;
      this.height := height;
    }

    /** move: shifts the position; the size stays. */
    method Move(dx: int, dy: int)
      modifies this`x, this`y
      ensures x == old(x) + dx && y == old(y) + dy
    {
      x := x + dx;
      y := y + dy;
    }

    /** setBounds(x, y, width, height). */
    method SetBounds(x: int, y: int, width: int, height: int)
      modifies this`x, this`y, this`width, this`height
      ensures Bounds() == Rect(x, y, width, height)
    {
      this.x := x;
      this.y := y;
      this.width := width;
      this.height := height;
    }

    /** setBounds(HitBox): copies the other box's bounds; the other box is not changed (unless it is this one). */
    method SetBoundsFrom(other: HitBox)
      modifies this`x, this`y, this`width, this`height
      ensures Bounds() == old(other.Bounds())
      ensures other != this ==> unchanged(other)
    {
      x := other.x;
      y := other.y;
      width := other.width;
      height := other.height;
    }

    /** getLocation: the box's position. */
    method GetLocation() returns (p: Point)
      ensures p == Point(x, y)
    {
      p := Point(x, y);
    }
  }

  /** intersects(HitBox) is symmetric, and agrees with the value-level test. */
  lemma IntersectsBoxSymmetric(a: HitBox, b: HitBox)
    ensures a.IntersectsBox(b) == Overlaps(a.Bounds(), b.Bounds())
    ensures a.IntersectsBox(b) == b.IntersectsBox(a)
  {
    OverlapsSymmetric(a.Bounds(), b.Bounds());
  }
}
