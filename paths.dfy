// 4-connected Floor paths on a grid, and the straight runs ("legs") that
// the corridor digger carves.

module Paths {
  import opened Geometry
  import opened Tiles

  /** The coordinate i steps from u toward v (u itself when u == v). */
  function Toward(u: int, v: int, i: int): int {
    if u < v then u + i else if u > v then u - i else u
  }

  /** `t` lies in the bounding box of `a` and `b`. */
  predicate Between(a: Point, b: Point, t: Point) {
    Min(a.x, b.x) <= t.x <= Max(a.x, b.x) && Min(a.y, b.y) <= t.y <= Max(a.y, b.y)
  }

  /** The tiles from `a` to `b` in order along one row or one column,
      both ends included. */
  function Leg(a: Point, b: Point): (s: seq<Point>)
    requires a.x == b.x || a.y == b.y
    ensures |s| == Abs(b.x - a.x) + Abs(b.y - a.y) + 1
    ensures s[0] == a && s[|s| - 1] == b
    ensures forall i :: 0 <= i < |s| - 1 ==> Adjacent(s[i], s[i + 1])
    ensures forall i :: 0 <= i < |s| ==> Between(a, b, s[i])
  {
    seq(Abs(b.x - a.x) + Abs(b.y - a.y) + 1, i => Point(Toward(a.x, b.x, i), Toward(a.y, b.y, i)))
  }

  /** Every tile between the two ends lies on the leg. */
  lemma LegCovers(a: Point, b: Point, p: Point)
    requires a.x == b.x || a.y == b.y
    requires Between(a, b, p)
    ensures exists i :: 0 <= i < |Leg(a, b)| && Leg(a, b)[i] == p
  {
    var i := Abs(p.x - a.x) + Abs(p.y - a.y);
    assert Leg(a, b)[i] == p;
  }

  /** `path` walks from `a` to `b` through Floor tiles, one edge at a time. */
  ghost predicate IsPath(g: Grid, path: seq<Point>, a: Point, b: Point)
    requires Rectangular(g)
  {
    && |path| > 0 && path[0] == a && path[|path| - 1] == b
    && (forall i :: 0 <= i < |path| ==> IsFloor(g, path[i]))
    && (forall i :: 0 <= i < |path| - 1 ==> Adjacent(path[i], path[i + 1]))
  }

  /** `a` and `b` lie in the same 4-connected component of Floor tiles. */
  ghost predicate Connected(g: Grid, a: Point, b: Point)
    requires Rectangular(g)
  {
    exists path :: IsPath(g, path, a, b)
  }

  lemma ConnectedRefl(g: Grid, a: Point)
    requires Rectangular(g) && IsFloor(g, a)
    ensures Connected(g, a, a)
  {
    assert IsPath(g, [a], a, a);
  }

  lemma ConnectedJoin(g: Grid, a: Point, b: Point, c: Point)
    requires Rectangular(g) && Connected(g, a, b) && Connected(g, b, c)
    ensures Connected(g, a, c)
  {
    var p :| IsPath(g, p, a, b);
    var q :| IsPath(g, q, b, c);
    var r := p + q[1..];
    assert |r| == |p| + |q| - 1;
    forall i | 0 <= i < |r| - 1
      ensures Adjacent(r[i], r[i + 1])
    {
      if i < |p| - 1 {
        assert r[i] == p[i] && r[i + 1] == p[i + 1];
      } else {
        assert r[i] == q[i - |p| + 1] && r[i + 1] == q[i - |p| + 2];
      }
    }
    forall i | 0 <= i < |r|
      ensures IsFloor(g, r[i])
    {
      if i < |p| { assert r[i] == p[i]; } else { assert r[i] == q[i - |p| + 1]; }
    }
    assert IsPath(g, r, a, c);
  }

  lemma ConnectedSymmetric(g: Grid, a: Point, b: Point)
    requires Rectangular(g) && Connected(g, a, b)
    ensures Connected(g, b, a)
  {
    var p :| IsPath(g, p, a, b);
    var r := seq(|p|, i requires 0 <= i < |p| => p[|p| - 1 - i]);
    forall i | 0 <= i < |r| - 1
      ensures Adjacent(r[i], r[i + 1])
    {
      assert Adjacent(p[|p| - 2 - i], p[|p| - 1 - i]);
    }
    assert IsPath(g, r, b, a);
  }

  /** More Floor never disconnects anything. */
  lemma ConnectedWiden(g: Grid, g': Grid, a: Point, b: Point)
    requires Rectangular(g) && Rectangular(g') && FloorGrows(g, g')
    requires Connected(g, a, b)
    ensures Connected(g', a, b)
  {
    var p :| IsPath(g, p, a, b);
    assert IsPath(g', p, a, b);
  }

  /** A leg whose tiles are all Floor joins its two ends. */
  lemma LegConnected(g: Grid, a: Point, b: Point)
    requires Rectangular(g) && (a.x == b.x || a.y == b.y)
    requires forall i :: 0 <= i < |Leg(a, b)| ==> IsFloor(g, Leg(a, b)[i])
    ensures Connected(g, a, b)
  {
    assert IsPath(g, Leg(a, b), a, b);
  }

  /** Every tile of a Floor path is connected to the start of the path. */
  lemma ConnectedAlong(g: Grid, path: seq<Point>, a: Point, b: Point, i: nat)
    requires Rectangular(g) && IsPath(g, path, a, b) && i < |path|
    ensures Connected(g, a, path[i])
  {
    assert IsPath(g, path[..i + 1], a, path[i]);
  }

  /** Any two tiles of an all-Floor rectangle are connected. */
  lemma RectConnected(g: Grid, r: Rect, a: Point, b: Point)
    requires Rectangular(g)
    requires forall p :: Contains(r, p) ==> IsFloor(g, p)
    requires Contains(r, a) && Contains(r, b)
    ensures Connected(g, a, b)
  {
    var c := Point(b.x, a.y);
    forall i | 0 <= i < |Leg(a, c)| ensures IsFloor(g, Leg(a, c)[i]) {
      assert Contains(r, Leg(a, c)[i]);
    }
    forall i | 0 <= i < |Leg(c, b)| ensures IsFloor(g, Leg(c, b)[i]) {
      assert Contains(r, Leg(c, b)[i]);
    }
    LegConnected(g, a, c);
    LegConnected(g, c, b);
    ConnectedJoin(g, a, c, b);
  }
}
