/** Integer pixels and rectangles, as in core/include/ml/common.h. */
module Geometry {
  import opened Numbers

  datatype Point = Point(x: int, y: int)

  /** A rectangle with a negative or zero side is empty. */
  datatype Rect = Rect(x: int, y: int, w: int, h: int) {

    predicate Empty() { w <= 0 || h <= 0 }

    function Right(): int { x + w }

    function Bottom(): int { y + h }

    predicate Has(p: Point) {
      x <= p.x < x + w && y <= p.y < y + h
    }

    predicate Contains(r: Rect) {
      x <= r.x && y <= r.y && r.x + r.w <= x + w && r.y + r.h <= y + h
    }

    /** The intersection is not empty. */
    predicate Meets(r: Rect) {
      Max(x, r.x) < Min(Right(), r.Right()) && Max(y, r.y) < Min(Bottom(), r.Bottom())
    }

    /** The rectangle widened by m pixels on every side. */
    function Grown(m: int): Rect { Rect(x - m, y - m, w + 2 * m, h + 2 * m) }

    function Moved(dx: int, dy: int): Rect { Rect(x + dx, y + dy, w, h) }
  }

  /** The pixels of the intersection are exactly the common pixels. */
  function Intersect(a: Rect, b: Rect): (r: Rect)
    ensures forall p :: r.Has(p) <==> a.Has(p) && b.Has(p)
    ensures r.Empty() <==> !a.Meets(b)
  {
    var x := Max(a.x, b.x);
    var y := Max(a.y, b.y);
    Rect(x, y, Max(0, Min(a.Right(), b.Right()) - x), Max(0, Min(a.Bottom(), b.Bottom()) - y))
  }

  /** The bounding box of two rectangles; an empty one does not count. */
  function UnionBounds(a: Rect, b: Rect): (r: Rect)
    ensures forall p :: a.Has(p) || b.Has(p) ==> r.Has(p)
  {
    if a.Empty() then b
    else if b.Empty() then a
    else
      var x := Min(a.x, b.x);
      var y := Min(a.y, b.y);
      Rect(x, y, Max(a.Right(), b.Right()) - x, Max(a.Bottom(), b.Bottom()) - y)
  }

  /** Some rectangle of the list has the pixel. */
  predicate Covers(g: seq<Rect>, p: Point) {
    exists i :: 0 <= i < |g| && g[i].Has(p)
  }

  /** Every rectangle of the list lies inside r. */
  ghost predicate AllIn(g: seq<Rect>, r: Rect) {
    forall i :: 0 <= i < |g| ==> r.Contains(g[i])
  }

  /** Every pixel of r is covered. */
  ghost predicate CoversAll(g: seq<Rect>, r: Rect) {
    forall p :: r.Has(p) ==> Covers(g, p)
  }

  /** The compound rule behind every "add a damage rectangle" step. */
  lemma CoversAppend(g: seq<Rect>, r: Rect, p: Point)
    ensures Covers(g + [r], p) <==> Covers(g, p) || r.Has(p)
  {
    if Covers(g, p) {
      var i :| 0 <= i < |g| && g[i].Has(p);
      assert (g + [r])[i].Has(p);
    }
    if r.Has(p) {
      assert (g + [r])[|g|].Has(p);
    }
  }

  lemma MeetsIffSharedPixel(a: Rect, b: Rect)
    ensures a.Meets(b) <==> exists p :: a.Has(p) && b.Has(p)
  {
    var r := Intersect(a, b);
    if a.Meets(b) {
      assert r.Has(Point(r.x, r.y));
      assert a.Has(Point(r.x, r.y)) && b.Has(Point(r.x, r.y));
    }
    if p :| a.Has(p) && b.Has(p) {
      assert r.Has(p);
    }
  }
}
