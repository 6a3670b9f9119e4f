// The corridor digger: `DigCorridors` walks the BSP tree bottom-up and, at
// every internal node, joins a random room tile below the left child to a
// random room tile below the right child by an L-shaped Floor corridor.
// `PickPoint` and `Dig` specify ChoosePointInRoom and DigCorridors; the
// lemmas show that the corridor is a 4-connected Floor path and that after
// digging every room tile and every new Floor tile is connected to one
// anchor tile of the tree.

module Corridors {
  import opened Wrappers
  import opened Geometry
  import opened Tiles
  import opened Paths
  import opened Partition
  import opened Rooms
  import Random

  /** ChoosePointInRoom can run from `n`: it stops at a node with a
      non-empty room, and every node without a room has both children. */
  predicate Descendable(n: Node)
    decreases n
  {
    if n.room.Some? then n.room.value.w >= 1 && n.room.value.h >= 1
    else
      && n.left.Some? && n.right.Some?
      && Descendable(n.left.value) && Descendable(n.right.value)
  }

  /** `ChoosePointInRoom(node)`: descend by coin flips (heads: left) until a
      node with a room, then draw a column and a row inside that room. */
  function PickPoint(n: Node, g: Random.Rng): (r: (Point, Random.Rng))
    requires Descendable(n)
    ensures AnyRoom(n, r.0)
    decreases n
  {
    if n.room.Some? then
      var room := n.room.value;
      var (x, g1) := Random.Uniform(g, room.x, room.x + room.w - 1);
      var (y, g2) := Random.Uniform(g1, room.y, room.y + room.h - 1);
      (Point(x, y), g2)
    else
      var (coin, g1) := Random.Bool(g);
      PickPoint(if coin then n.left.value else n.right.value, g1)
  }

  /** DigCorridors can run on `n`: below every node with two children,
      ChoosePointInRoom can run from both of them. */
  predicate DigReady(n: Node)
    decreases n
  {
    n.left.Some? && n.right.Some? ==>
      && Descendable(n.left.value) && Descendable(n.right.value)
      && DigReady(n.left.value) && DigReady(n.right.value)
  }

  ghost predicate RoomsFloor(g: Grid, n: Node)
    requires Rectangular(g)
  {
    forall p :: AnyRoom(n, p) ==> IsFloor(g, p)
  }

  /** The tile where the two legs of the corridor meet. */
  function Corner(p1: Point, p2: Point, horizontalFirst: bool): Point {
    if horizontalFirst then Point(p2.x, p1.y) else Point(p1.x, p2.y)
  }

  /** The two carving calls of one L-shaped corridor. */
  function CarveL(g: Grid, p1: Point, p2: Point, horizontalFirst: bool): (r: Grid)
    requires Rectangular(g) && InGrid(g, p1) && InGrid(g, p2)
    ensures SameShape(g, r)
  {
    if horizontalFirst then CarveColumn(CarveRow(g, p1.x, p2.x, p1.y), p1.y, p2.y, p2.x)
    else CarveRow(CarveColumn(g, p1.y, p2.y, p1.x), p1.x, p2.x, p2.y)
  }

  /** The walk from p1 to p2 along the corridor: first leg to the corner,
      second leg on from it. */
  function LPath(p1: Point, p2: Point, horizontalFirst: bool): seq<Point> {
    var c := Corner(p1, p2, horizontalFirst);
    Leg(p1, c) + Leg(c, p2)[1..]
  }

  lemma CarveLGrows(g: Grid, p1: Point, p2: Point, horizontalFirst: bool)
    requires Rectangular(g) && InGrid(g, p1) && InGrid(g, p2)
    ensures FloorGrows(g, CarveL(g, p1, p2, horizontalFirst))
  {
    if horizontalFirst {
      CarveRowGrows(g, p1.x, p2.x, p1.y);
      CarveColumnGrows(CarveRow(g, p1.x, p2.x, p1.y), p1.y, p2.y, p2.x);
    } else {
      CarveColumnGrows(g, p1.y, p2.y, p1.x);
      CarveRowGrows(CarveColumn(g, p1.y, p2.y, p1.x), p1.x, p2.x, p2.y);
    }
  }

  /** The first leg of the corridor is Floor afterwards. */
  lemma FirstLegFloor(g: Grid, p1: Point, p2: Point, horizontalFirst: bool)
    requires Rectangular(g) && InGrid(g, p1) && InGrid(g, p2)
    ensures var a := Leg(p1, Corner(p1, p2, horizontalFirst));
      forall i :: 0 <= i < |a| ==> IsFloor(CarveL(g, p1, p2, horizontalFirst), a[i])
  {
    var a := Leg(p1, Corner(p1, p2, horizontalFirst));
    if horizontalFirst {
      var g1 := CarveRow(g, p1.x, p2.x, p1.y);
      CarveColumnGrows(g1, p1.y, p2.y, p2.x);
      forall i | 0 <= i < |a| ensures IsFloor(g1, a[i]) {
        RowFloor(g, p1.x, p2.x, p1.y, a[i]);
      }
    } else {
      var g1 := CarveColumn(g, p1.y, p2.y, p1.x);
      CarveRowGrows(g1, p1.x, p2.x, p2.y);
      forall i | 0 <= i < |a| ensures IsFloor(g1, a[i]) {
        ColumnFloor(g, p1.y, p2.y, p1.x, a[i]);
      }
    }
  }

  /** The second leg of the corridor is Floor afterwards. */
  lemma SecondLegFloor(g: Grid, p1: Point, p2: Point, horizontalFirst: bool)
    requires Rectangular(g) && InGrid(g, p1) && InGrid(g, p2)
    ensures var b := Leg(Corner(p1, p2, horizontalFirst), p2);
      forall i :: 0 <= i < |b| ==> IsFloor(CarveL(g, p1, p2, horizontalFirst), b[i])
  {
    var b := Leg(Corner(p1, p2, horizontalFirst), p2);
    if horizontalFirst {
      var g1 := CarveRow(g, p1.x, p2.x, p1.y);
      forall i | 0 <= i < |b| ensures IsFloor(CarveColumn(g1, p1.y, p2.y, p2.x), b[i]) {
        ColumnFloor(g1, p1.y, p2.y, p2.x, b[i]);
      }
    } else {
      var g1 := CarveColumn(g, p1.y, p2.y, p1.x);
      forall i | 0 <= i < |b| ensures IsFloor(CarveRow(g1, p1.x, p2.x, p2.y), b[i]) {
        RowFloor(g1, p1.x, p2.x, p2.y, b[i]);
      }
    }
  }

  /** The corridor's walk is one step at a time from p1 to p2, its two legs
      meeting at the corner. */
  lemma LPathSteps(p1: Point, p2: Point, horizontalFirst: bool)
    ensures var c := Corner(p1, p2, horizontalFirst);
      Leg(p1, c)[|Leg(p1, c)| - 1] == c == Leg(c, p2)[0]
    ensures var path := LPath(p1, p2, horizontalFirst);
      && |path| > 0 && path[0] == p1 && path[|path| - 1] == p2
      && forall i :: 0 <= i < |path| - 1 ==> Adjacent(path[i], path[i + 1])
  {
    var c := Corner(p1, p2, horizontalFirst);
    var a, b := Leg(p1, c), Leg(c, p2);
    var path := LPath(p1, p2, horizontalFirst);
    assert path == a + b[1..];
    forall i | 0 <= i < |path| - 1
      ensures Adjacent(path[i], path[i + 1])
    {
      if i < |a| - 1 {
        assert path[i] == a[i] && path[i + 1] == a[i + 1];
      } else {
        assert path[i] == b[i - |a| + 1] && path[i + 1] == b[i - |a| + 2];
      }
    }
  }

  /** The corridor dug between p1 and p2 is a 4-connected Floor path from
      p1 to p2 whose two legs end at the shared corner. */
  lemma LCorridor(g: Grid, p1: Point, p2: Point, horizontalFirst: bool)
    requires Rectangular(g) && InGrid(g, p1) && InGrid(g, p2)
    ensures var c := Corner(p1, p2, horizontalFirst);
      Leg(p1, c)[|Leg(p1, c)| - 1] == c == Leg(c, p2)[0]
    ensures IsPath(CarveL(g, p1, p2, horizontalFirst), LPath(p1, p2, horizontalFirst), p1, p2)
  {
    var g' := CarveL(g, p1, p2, horizontalFirst);
    var c := Corner(p1, p2, horizontalFirst);
    var a, b := Leg(p1, c), Leg(c, p2);
    var path := LPath(p1, p2, horizontalFirst);
    FirstLegFloor(g, p1, p2, horizontalFirst);
    SecondLegFloor(g, p1, p2, horizontalFirst);
    LPathSteps(p1, p2, horizontalFirst);
    assert path == a + b[1..];
    forall i | 0 <= i < |path|
      ensures IsFloor(g', path[i])
    {
      if i < |a| {
        assert path[i] == a[i];
      } else {
        assert path[i] == b[i - |a| + 1];
      }
    }
  }

  /** The tiles the corridor turns to Floor lie on the spans of its legs. */
  lemma CarvedSpans(g: Grid, p1: Point, p2: Point, horizontalFirst: bool, t: Point)
    requires Rectangular(g) && InGrid(g, p1) && InGrid(g, p2)
    requires IsFloor(CarveL(g, p1, p2, horizontalFirst), t) && !IsFloor(g, t)
    ensures Between(p1, Corner(p1, p2, horizontalFirst), t) || Between(Corner(p1, p2, horizontalFirst), p2, t)
  {
    if horizontalFirst {
      var g1 := CarveRow(g, p1.x, p2.x, p1.y);
      if !IsFloor(g1, t) {
        assert CarveColumn(g1, p1.y, p2.y, p2.x)[t.y][t.x] == Floor;
      }
    } else {
      var g1 := CarveColumn(g, p1.y, p2.y, p1.x);
      if !IsFloor(g1, t) {
        assert CarveRow(g1, p1.x, p2.x, p2.y)[t.y][t.x] == Floor;
      }
    }
  }

  /** Every tile on the spans of the legs lies on the walk. */
  lemma SpansOnPath(p1: Point, p2: Point, horizontalFirst: bool, t: Point)
    requires Between(p1, Corner(p1, p2, horizontalFirst), t) || Between(Corner(p1, p2, horizontalFirst), p2, t)
    ensures exists i :: 0 <= i < |LPath(p1, p2, horizontalFirst)| && LPath(p1, p2, horizontalFirst)[i] == t
  {
    var c := Corner(p1, p2, horizontalFirst);
    var a, b := Leg(p1, c), Leg(c, p2);
    var path := LPath(p1, p2, horizontalFirst);
    assert path == a + b[1..];
    if Between(p1, c, t) {
      LegCovers(p1, c, t);
      var i :| 0 <= i < |a| && a[i] == t;
      assert path[i] == t;
    } else {
      LegCovers(c, p2, t);
      var i :| 0 <= i < |b| && b[i] == t;
      assert i != 0;  // b[0] is the corner, which lies on the first leg
      assert path[|a| + i - 1] == t;
    }
  }

  /** Every tile the corridor turns to Floor lies on the walk. */
  lemma CorridorOnPath(g: Grid, p1: Point, p2: Point, horizontalFirst: bool, t: Point)
    requires Rectangular(g) && InGrid(g, p1) && InGrid(g, p2)
    requires IsFloor(CarveL(g, p1, p2, horizontalFirst), t) && !IsFloor(g, t)
    ensures exists i :: 0 <= i < |LPath(p1, p2, horizontalFirst)| && LPath(p1, p2, horizontalFirst)[i] == t
  {
    CarvedSpans(g, p1, p2, horizontalFirst, t);
    SpansOnPath(p1, p2, horizontalFirst, t);
  }

  /** `DigCorridors(leaf)`: the grid and the random state afterwards. */
  function Dig(g: Grid, n: Node, rng: Random.Rng): (r: (Grid, Random.Rng))
    requires Rectangular(g) && DigReady(n) && RoomsWithin(n, Bounds(g))
    ensures SameShape(g, r.0)
    ensures FloorGrows(g, r.0)
    decreases n
  {
    if n.left.None? || n.right.None? then (g, rng)
    else
      var l, rt := n.left.value, n.right.value;
      var (g1, rng1) := Dig(g, l, rng);
      var (g2, rng2) := Dig(g1, rt, rng1);
      var (p1, rng3) := PickPoint(l, rng2);
      var (p2, rng4) := PickPoint(rt, rng3);
      var (horizontalFirst, rng5) := Random.Bool(rng4);
      AnyRoomWithin(l, Bounds(g2), p1);
      AnyRoomWithin(rt, Bounds(g2), p2);
      CarveLGrows(g2, p1, p2, horizontalFirst);
      (CarveL(g2, p1, p2, horizontalFirst), rng5)
  }

  /** A room tile of the tree, chosen the same way at every tree: the
      corner of the leftmost room. */
  function Anchor(n: Node): Point
    requires Furnished(n)
    decreases n
  {
    if n.IsLeaf() then Point(n.room.value.x, n.room.value.y) else Anchor(n.left.value)
  }

  lemma {:induction false} AnchorInRoom(n: Node)
    requires Furnished(n)
    ensures AnyRoom(n, Anchor(n))
    decreases n
  {
    if !n.IsLeaf() {
      AnchorInRoom(n.left.value);
    }
  }

  /** A furnished tree is one DigCorridors and ChoosePointInRoom can run on. */
  lemma {:induction false} FurnishedReady(n: Node)
    requires Furnished(n)
    ensures Descendable(n) && DigReady(n)
    decreases n
  {
    if !n.IsLeaf() {
      FurnishedReady(n.left.value);
      FurnishedReady(n.right.value);
    }
  }

  /** In a furnished tree the only rooms are those of the leaves. */
  lemma {:induction false} FurnishedRoomParts(n: Node, p: Point)
    requires Furnished(n) && !n.IsLeaf()
    ensures AnyRoom(n, p) <==> AnyRoom(n.left.value, p) || AnyRoom(n.right.value, p)
  {}

  /** The one step of the connectivity proof at an internal node: once the
      corridor is dug, the right child's anchor is connected to the left's. */
  lemma Bridge(g1: Grid, g2: Grid, g': Grid, p1: Point, p2: Point,
               horizontalFirst: bool, al: Point, ar: Point)
    requires Rectangular(g1) && SameShape(g1, g2) && InGrid(g2, p1) && InGrid(g2, p2)
    requires g' == CarveL(g2, p1, p2, horizontalFirst)
    requires FloorGrows(g1, g2)
    requires Connected(g1, p1, al) && Connected(g2, p2, ar)
    ensures Connected(g', ar, al)
    ensures Connected(g', p2, al)
  {
    LCorridor(g2, p1, p2, horizontalFirst);
    CarveLGrows(g2, p1, p2, horizontalFirst);
    ConnectedWiden(g1, g2, p1, al);
    ConnectedWiden(g2, g', p1, al);
    ConnectedWiden(g2, g', p2, ar);
    assert Connected(g', p1, p2);
    ConnectedSymmetric(g', p1, p2);
    ConnectedJoin(g', p2, p1, al);
    ConnectedSymmetric(g', p2, ar);
    ConnectedJoin(g', ar, p2, al);
  }

  /** What digging at one node guarantees, given that the room tiles are
      Floor beforehand: every room tile of the subtree, and every tile the
      digging turned to Floor, is connected to the anchor of the subtree. */
  lemma {:induction false} DigConnects(g: Grid, n: Node, rng: Random.Rng)
    requires Rectangular(g) && Furnished(n) && DigReady(n) && RoomsWithin(n, Bounds(g)) && RoomsFloor(g, n)
    ensures forall p :: AnyRoom(n, p) ==> Connected(Dig(g, n, rng).0, p, Anchor(n))
    ensures forall t :: IsFloor(Dig(g, n, rng).0, t) && !IsFloor(g, t) ==>
      Connected(Dig(g, n, rng).0, t, Anchor(n))
    decreases n
  {
    var a := Anchor(n);
    if n.IsLeaf() {
      assert Dig(g, n, rng).0 == g;
      var room := n.room.value;
      forall p | AnyRoom(n, p)
        ensures Connected(g, p, a)
      {
        RectConnected(g, room, p, a);
      }
    } else {
      var l, r := n.left.value, n.right.value;
      var (g1, rng1) := Dig(g, l, rng);
      var (g2, rng2) := Dig(g1, r, rng1);
      var (p1, rng3) := PickPoint(l, rng2);
      var (p2, rng4) := PickPoint(r, rng3);
      var (horizontalFirst, rng5) := Random.Bool(rng4);
      AnyRoomWithin(l, Bounds(g2), p1);
      AnyRoomWithin(r, Bounds(g2), p2);
      var g' := CarveL(g2, p1, p2, horizontalFirst);
      assert Dig(g, n, rng).0 == g';
      var ar := Anchor(r);
      assert a == Anchor(l);
      DigConnects(g, l, rng);
      DigConnects(g1, r, rng1);
      LCorridor(g2, p1, p2, horizontalFirst);
      CarveLGrows(g2, p1, p2, horizontalFirst);
      assert Connected(g1, p1, a) && Connected(g2, p2, ar);
      Bridge(g1, g2, g', p1, p2, horizontalFirst, a, ar);
      forall p | AnyRoom(n, p)
        ensures Connected(g', p, a)
      {
        FurnishedRoomParts(n, p);
        if AnyRoom(l, p) {
          ConnectedWiden(g1, g2, p, a);
          ConnectedWiden(g2, g', p, a);
        } else {
          ConnectedWiden(g2, g', p, ar);
          ConnectedJoin(g', p, ar, a);
        }
      }
      forall t | IsFloor(g', t) && !IsFloor(g, t)
        ensures Connected(g', t, a)
      {
        if IsFloor(g1, t) {
          ConnectedWiden(g1, g2, t, a);
          ConnectedWiden(g2, g', t, a);
        } else if IsFloor(g2, t) {
          ConnectedWiden(g2, g', t, ar);
          ConnectedJoin(g', t, ar, a);
        } else {
          var path := LPath(p1, p2, horizontalFirst);
          CorridorOnPath(g2, p1, p2, horizontalFirst, t);
          var i :| 0 <= i < |path| && path[i] == t;
          ConnectedAlong(g', path, p1, p2, i);
          ConnectedSymmetric(g', p1, t);
          ConnectedWiden(g1, g2, p1, a);
          ConnectedWiden(g2, g', p1, a);
          ConnectedJoin(g', t, p1, a);
        }
      }
    }
  }
  /** A corridor between two tiles of `box` stays inside `box`. */
  lemma CorridorInside(g: Grid, p1: Point, p2: Point, horizontalFirst: bool, box: Rect, t: Point)
    requires Rectangular(g) && InGrid(g, p1) && InGrid(g, p2) && Contains(box, p1) && Contains(box, p2)
    requires IsFloor(CarveL(g, p1, p2, horizontalFirst), t) && !IsFloor(g, t)
    ensures Contains(box, t)
  {
    CarvedSpans(g, p1, p2, horizontalFirst, t);
  }

  /** Digging sets to Floor only tiles of a box that holds every room. */
  lemma {:induction false} DigInside(g: Grid, n: Node, rng: Random.Rng, box: Rect)
    requires Rectangular(g) && DigReady(n) && RoomsWithin(n, Bounds(g)) && RoomsWithin(n, box)
    ensures forall t :: IsFloor(Dig(g, n, rng).0, t) && !IsFloor(g, t) ==> Contains(box, t)
    decreases n
  {
    if n.left.Some? && n.right.Some? {
      var l, r := n.left.value, n.right.value;
      var (g1, rng1) := Dig(g, l, rng);
      var (g2, rng2) := Dig(g1, r, rng1);
      var (p1, rng3) := PickPoint(l, rng2);
      var (p2, rng4) := PickPoint(r, rng3);
      var (horizontalFirst, rng5) := Random.Bool(rng4);
      AnyRoomWithin(l, Bounds(g2), p1);
      AnyRoomWithin(r, Bounds(g2), p2);
      AnyRoomWithin(l, box, p1);
      AnyRoomWithin(r, box, p2);
      var g' := CarveL(g2, p1, p2, horizontalFirst);
      assert Dig(g, n, rng).0 == g';
      DigInside(g, l, rng, box);
      DigInside(g1, r, rng1, box);
      forall t | IsFloor(g', t) && !IsFloor(g, t)
        ensures Contains(box, t)
      {
        if !IsFloor(g2, t) {
          CorridorInside(g2, p1, p2, horizontalFirst, box, t);
        }
      }
    }
  }

  /** The three choices behind one corridor: its two end points and which
      leg is carved first. */
  datatype Corridor = Corridor(p1: Point, p2: Point, horizontalFirst: bool)

  function PathOf(c: Corridor): seq<Point> {
    LPath(c.p1, c.p2, c.horizontalFirst)
  }

  /** `t` lies on the walk of one of the corridors. */
  predicate OnCorridor(cs: seq<Corridor>, t: Point) {
    exists k :: 0 <= k < |cs| && t in PathOf(cs[k])
  }

  /** The corridors `DigCorridors(leaf)` carves, in the order it carves
      them, and the random state afterwards; no grid is needed to draw them. */
  function CorridorPlan(n: Node, rng: Random.Rng): (r: (seq<Corridor>, Random.Rng))
    requires DigReady(n)
    ensures Full(n) ==> |r.0| + 1 == |Leaves(n)|
    decreases n
  {
    if n.left.None? || n.right.None? then ([], rng)
    else
      var l, rt := n.left.value, n.right.value;
      var (cl, rng1) := CorridorPlan(l, rng);
      var (cr, rng2) := CorridorPlan(rt, rng1);
      var (p1, rng3) := PickPoint(l, rng2);
      var (p2, rng4) := PickPoint(rt, rng3);
      var (horizontalFirst, rng5) := Random.Bool(rng4);
      (cl + cr + [Corridor(p1, p2, horizontalFirst)], rng5)
  }

  lemma OnCorridorAppend(a: seq<Corridor>, b: seq<Corridor>, c: Corridor, t: Point)
    ensures OnCorridor(a + b + [c], t) <==> OnCorridor(a, t) || OnCorridor(b, t) || t in PathOf(c)
  {
    var s := a + b + [c];
    if OnCorridor(s, t) {
      var k :| 0 <= k < |s| && t in PathOf(s[k]);
      if k < |a| {
        assert s[k] == a[k];
      } else if k < |a| + |b| {
        assert s[k] == b[k - |a|];
      } else {
        assert s[k] == c;
      }
    }
    if OnCorridor(a, t) {
      var k :| 0 <= k < |a| && t in PathOf(a[k]);
      assert s[k] == a[k];
    }
    if OnCorridor(b, t) {
      var k :| 0 <= k < |b| && t in PathOf(b[k]);
      assert s[|a| + k] == b[k];
    }
    if t in PathOf(c) {
      assert s[|a| + |b|] == c;
    }
  }

  /** One corridor sets exactly the tiles of its walk to Floor and leaves
      every other tile as it was. */
  lemma CarveLExact(g: Grid, p1: Point, p2: Point, horizontalFirst: bool, t: Point)
    requires Rectangular(g) && InGrid(g, p1) && InGrid(g, p2) && InGrid(g, t)
    ensures CarveL(g, p1, p2, horizontalFirst)[t.y][t.x] ==
      if t in LPath(p1, p2, horizontalFirst) then Floor else g[t.y][t.x]
  {
    var g' := CarveL(g, p1, p2, horizontalFirst);
    var path := LPath(p1, p2, horizontalFirst);
    CarveLGrows(g, p1, p2, horizontalFirst);
    if t in path {
      LCorridor(g, p1, p2, horizontalFirst);
      var i :| 0 <= i < |path| && path[i] == t;
      assert IsFloor(g', path[i]);
    } else if g'[t.y][t.x] == Floor && g[t.y][t.x] != Floor {
      CorridorOnPath(g, p1, p2, horizontalFirst, t);
      assert false;
    }
  }

  /** Digging a corridor a second time changes nothing. */
  lemma CarveLIdempotent(g: Grid, p1: Point, p2: Point, horizontalFirst: bool)
    requires Rectangular(g) && InGrid(g, p1) && InGrid(g, p2)
    ensures CarveL(CarveL(g, p1, p2, horizontalFirst), p1, p2, horizontalFirst) == CarveL(g, p1, p2, horizontalFirst)
  {
    var g1 := CarveL(g, p1, p2, horizontalFirst);
    var g2 := CarveL(g1, p1, p2, horizontalFirst);
    forall y, x | 0 <= y < |g2| && 0 <= x < Width(g2)
      ensures g2[y][x] == g1[y][x]
    {
      CarveLExact(g1, p1, p2, horizontalFirst, Point(x, y));
      CarveLExact(g, p1, p2, horizontalFirst, Point(x, y));
    }
    Extensionality(g2, g1);
  }

  /** DigCorridors draws the corridors of `Corridors` and sets exactly the
      tiles on their walks to Floor; every other tile keeps its value. */
  lemma {:induction false} DigExact(g: Grid, n: Node, rng: Random.Rng, t: Point)
    requires Rectangular(g) && DigReady(n) && RoomsWithin(n, Bounds(g)) && InGrid(g, t)
    ensures Dig(g, n, rng).1 == CorridorPlan(n, rng).1
    ensures Dig(g, n, rng).0[t.y][t.x] == if OnCorridor(CorridorPlan(n, rng).0, t) then Floor else g[t.y][t.x]
    decreases n
  {
    if n.left.Some? && n.right.Some? {
      var l, r := n.left.value, n.right.value;
      var (g1, rng1) := Dig(g, l, rng);
      var (cl, c1) := CorridorPlan(l, rng);
      DigExact(g, l, rng, t);
      assert rng1 == c1;
      var (g2, rng2) := Dig(g1, r, rng1);
      var (cr, c2) := CorridorPlan(r, rng1);
      DigExact(g1, r, rng1, t);
      assert rng2 == c2;
      var (p1, rng3) := PickPoint(l, rng2);
      var (p2, rng4) := PickPoint(r, rng3);
      var (horizontalFirst, rng5) := Random.Bool(rng4);
      AnyRoomWithin(l, Bounds(g2), p1);
      AnyRoomWithin(r, Bounds(g2), p2);
      var c := Corridor(p1, p2, horizontalFirst);
      assert Dig(g, n, rng) == (CarveL(g2, p1, p2, horizontalFirst), rng5);
      assert CorridorPlan(n, rng) == (cl + cr + [c], rng5);
      CarveLExact(g2, p1, p2, horizontalFirst, t);
      OnCorridorAppend(cl, cr, c, t);
    }
  }

  /** Every corridor DigCorridors carves runs between two room tiles. */
  lemma {:induction false} CorridorEnds(n: Node, rng: Random.Rng, k: nat)
    requires DigReady(n) && k < |CorridorPlan(n, rng).0|
    ensures AnyRoom(n, CorridorPlan(n, rng).0[k].p1) && AnyRoom(n, CorridorPlan(n, rng).0[k].p2)
    decreases n
  {
    var l, r := n.left.value, n.right.value;
    var (cl, rng1) := CorridorPlan(l, rng);
    var (cr, rng2) := CorridorPlan(r, rng1);
    var cs := CorridorPlan(n, rng).0;
    assert cs == cl + cr + [cs[|cs| - 1]];
    if k < |cl| {
      assert cs[k] == cl[k];
      CorridorEnds(l, rng, k);
    } else if k < |cl| + |cr| {
      assert cs[k] == cr[k - |cl|];
      CorridorEnds(r, rng1, k - |cl|);
    }
  }
}
