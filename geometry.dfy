// Integer geometry shared by the partitioner, the room carver and the
// corridor digger: axis-aligned rectangles (the x, y, w, h part of the
// generator's Rect record) and grid points.

module Wrappers {
  datatype Option<+T> = None | Some(value: T)
}

module Geometry {

  /** A rectangle with origin (x, y) and extents w, h; it covers the tiles
      x <= px < x + w, y <= py < y + h. */
  datatype Rect = Rect(x: int, y: int, w: int, h: int)

  /** A tile coordinate: column x, row y. */
  datatype Point = Point(x: int, y: int)

  function Min(a: int, b: int): int { if a <= b then a else b }

  function Max(a: int, b: int): int { if a <= b then b else a }

  function Abs(a: int): nat { if a < 0 then -a else a }

  predicate Contains(r: Rect, p: Point) {
    r.x <= p.x < r.x + r.w && r.y <= p.y < r.y + r.h
  }

  /** `inner` lies inside `outer` (as tile sets, for extents >= 0). */
  predicate Within(inner: Rect, outer: Rect) {
    outer.x <= inner.x && inner.x + inner.w <= outer.x + outer.w &&
    outer.y <= inner.y && inner.y + inner.h <= outer.y + outer.h
  }

  /** The rectangle `r` with a one-tile margin taken off every side. */
  function Shrink(r: Rect): Rect {
    Rect(r.x + 1, r.y + 1, r.w - 2, r.h - 2)
  }

  /** Two tiles that share an edge (4-neighbourhood). */
  predicate Adjacent(a: Point, b: Point) {
    Abs(a.x - b.x) + Abs(a.y - b.y) == 1
  }

  lemma WithinContains(inner: Rect, outer: Rect, p: Point)
    requires Within(inner, outer) && Contains(inner, p)
    ensures Contains(outer, p)
  {}
}
