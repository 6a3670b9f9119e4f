// The room carver: `CreateRooms` gives every leaf of the BSP tree one room
// with at least one tile of margin inside the leaf, and sets the room's
// tiles to Floor.  `Furnish` (the rooms chosen) and `PaintRooms` (the
// tiles written) specify the generator's CreateRooms method.

module Rooms {
  import opened Wrappers
  import opened Geometry
  import opened Tiles
  import opened Partition
  import Random

  /** A room at least 3 by 3, at most two tiles narrower and lower than the
      leaf, with at least one tile of margin on every side. */
  predicate RoomFits(leaf: Rect, room: Rect) {
    && 3 <= room.w <= leaf.w - 2 && 3 <= room.h <= leaf.h - 2
    && leaf.x + 1 <= room.x && room.x + room.w <= leaf.x + leaf.w - 1
    && leaf.y + 1 <= room.y && room.y + room.h <= leaf.y + leaf.h - 1
  }

  /** `after` is `before` with a fitting room in every leaf; areas, shape
      and the rooms of internal nodes are unchanged. */
  predicate Furnishes(before: Node, after: Node)
    decreases before
  {
    && after.area == before.area
    && if before.IsLeaf() then
         after.IsLeaf() && after.room.Some? && RoomFits(before.area, after.room.value)
       else
         && before.left.Some? && before.right.Some?
         && after.left.Some? && after.right.Some?
         && after.room == before.room
         && Furnishes(before.left.value, after.left.value)
         && Furnishes(before.right.value, after.right.value)
  }

  /** The room choices of `CreateRooms(leaf)`: the state of the tree and
      of the random source afterwards. */
  function Furnish(n: Node, g: Random.Rng): (r: (Node, Random.Rng))
    requires Full(n) && LeavesAtLeast(n, 5)
    ensures Furnishes(n, r.0)
    decreases n
  {
    if !n.IsLeaf() then
      var (l, g1) := Furnish(n.left.value, g);
      var (rt, g2) := Furnish(n.right.value, g1);
      (n.(left := Some(l), right := Some(rt)), g2)
    else
      var (roomW, g1) := Random.Uniform(g, 3, n.area.w - 2);
      var (roomH, g2) := Random.Uniform(g1, 3, n.area.h - 2);
      var (rx, g3) := Random.Uniform(g2, 1, n.area.w - roomW - 1);
      var (ry, g4) := Random.Uniform(g3, 1, n.area.h - roomH - 1);
      (n.(room := Some(Rect(n.area.x + rx, n.area.y + ry, roomW, roomH))), g4)
  }

  /** The room of a leaf is given by its four draws, in the order width,
      height, column offset, row offset. */
  lemma FurnishLeaf(n: Node, g0: Random.Rng, w: int, g1: Random.Rng, h: int, g2: Random.Rng,
                    x: int, g3: Random.Rng, y: int, g4: Random.Rng)
    requires n.IsLeaf() && LeavesAtLeast(n, 5)
    requires (w, g1) == Random.Uniform(g0, 3, n.area.w - 2)
    requires (h, g2) == Random.Uniform(g1, 3, n.area.h - 2)
    requires (x, g3) == Random.Uniform(g2, 1, n.area.w - w - 1)
    requires (y, g4) == Random.Uniform(g3, 1, n.area.h - h - 1)
    ensures Furnish(n, g0) == (n.(room := Some(Rect(n.area.x + x, n.area.y + y, w, h))), g4)
  {}

  /** Every leaf lies inside `box`. */
  predicate LeavesIn(n: Node, box: Rect)
    decreases n
  {
    if n.IsLeaf() then Within(n.area, box)
    else
      && (n.left.Some? ==> LeavesIn(n.left.value, box))
      && (n.right.Some? ==> LeavesIn(n.right.value, box))
  }

  /** The tree is full, and every leaf has a room inside `box`. */
  predicate LeafRoomsIn(n: Node, box: Rect)
    decreases n
  {
    if n.IsLeaf() then n.room.Some? && Within(n.room.value, box)
    else
      && n.left.Some? && n.right.Some?
      && LeafRoomsIn(n.left.value, box)
      && LeafRoomsIn(n.right.value, box)
  }

  /** Every leaf has a non-empty room and no internal node has one: the
      shape CreateRooms leaves behind on a freshly partitioned tree. */
  predicate Furnished(n: Node)
    decreases n
  {
    if n.IsLeaf() then n.room.Some? && n.room.value.w >= 1 && n.room.value.h >= 1
    else
      && n.left.Some? && n.right.Some? && n.room.None?
      && Furnished(n.left.value) && Furnished(n.right.value)
  }

  /** `p` lies in the room of some node of the tree. */
  predicate AnyRoom(n: Node, p: Point)
    decreases n
  {
    || (n.room.Some? && Contains(n.room.value, p))
    || (n.left.Some? && AnyRoom(n.left.value, p))
    || (n.right.Some? && AnyRoom(n.right.value, p))
  }

  /** The room of every node lies inside `box`. */
  predicate RoomsWithin(n: Node, box: Rect)
    decreases n
  {
    && (n.room.Some? ==> Within(n.room.value, box))
    && (n.left.Some? ==> RoomsWithin(n.left.value, box))
    && (n.right.Some? ==> RoomsWithin(n.right.value, box))
  }

  lemma {:induction false} AnyRoomWithin(n: Node, box: Rect, p: Point)
    requires RoomsWithin(n, box) && AnyRoom(n, p)
    ensures Contains(box, p)
    decreases n
  {
    if n.room.Some? && Contains(n.room.value, p) {
      WithinContains(n.room.value, box, p);
    } else if n.left.Some? && AnyRoom(n.left.value, p) {
      AnyRoomWithin(n.left.value, box, p);
    } else {
      AnyRoomWithin(n.right.value, box, p);
    }
  }

  /** The grid writes of `CreateRooms(leaf)` on the furnished tree: the
      leaves' rooms set to Floor, left subtree first. */
  function PaintRooms(g: Grid, n: Node): (r: Grid)
    requires Rectangular(g) && LeafRoomsIn(n, Bounds(g))
    ensures SameShape(g, r)
    decreases n
  {
    if n.IsLeaf() then FillRect(g, n.room.value)
    else PaintRooms(PaintRooms(g, n.left.value), n.right.value)
  }

  lemma {:induction false} FurnishKeepsShape(n: Node, n': Node, minLeaf: int, maxLeaf: int)
    requires Furnishes(n, n')
    ensures IsBsp(n, minLeaf, maxLeaf) ==> IsBsp(n', minLeaf, maxLeaf)
    ensures Leaves(n') == Leaves(n)
    decreases n
  {
    if !n.IsLeaf() {
      FurnishKeepsShape(n.left.value, n'.left.value, minLeaf, maxLeaf);
      FurnishKeepsShape(n.right.value, n'.right.value, minLeaf, maxLeaf);
    }
  }

  /** On a tree without rooms, CreateRooms leaves rooms exactly in the leaves. */
  lemma {:induction false} FurnishedAfterFurnish(n: Node, n': Node)
    requires Furnishes(n, n') && NoRooms(n)
    ensures Furnished(n')
    decreases n
  {
    if !n.IsLeaf() {
      FurnishedAfterFurnish(n.left.value, n'.left.value);
      FurnishedAfterFurnish(n.right.value, n'.right.value);
    }
  }

  /** A room lies strictly inside its leaf, so rooms of leaves inside `box`
      lie inside `box` with a one-tile margin. */
  lemma {:induction false} RoomsInsideMargin(n: Node, n': Node, box: Rect)
    requires Furnishes(n, n') && NoRooms(n) && LeavesIn(n, box)
    ensures LeafRoomsIn(n', Shrink(box))
    ensures RoomsWithin(n', Shrink(box))
    decreases n
  {
    if !n.IsLeaf() {
      RoomsInsideMargin(n.left.value, n'.left.value, box);
      RoomsInsideMargin(n.right.value, n'.right.value, box);
    }
  }

  /** Leaves of a BSP tree lie inside its root. */
  lemma {:induction false} BspLeavesIn(n: Node, minLeaf: int, maxLeaf: int, box: Rect)
    requires IsBsp(n, minLeaf, maxLeaf) && minLeaf >= 1 && Within(n.area, box)
    ensures LeavesIn(n, box)
    decreases n
  {
    if !n.IsLeaf() {
      CutTiles(n.area, n.left.value.area, n.right.value.area, minLeaf, maxLeaf, Point(0, 0));
      BspLeavesIn(n.left.value, minLeaf, maxLeaf, box);
      BspLeavesIn(n.right.value, minLeaf, maxLeaf, box);
    }
  }

  /** CreateRooms sets exactly the room tiles to Floor and changes no
      other tile. */
  lemma {:induction false} PaintRoomsExact(g: Grid, n: Node, p: Point)
    requires Rectangular(g) && LeafRoomsIn(n, Bounds(g)) && Furnished(n)
    requires InGrid(g, p)
    ensures PaintRooms(g, n)[p.y][p.x] == if AnyRoom(n, p) then Floor else g[p.y][p.x]
    decreases n
  {
    if !n.IsLeaf() {
      var l, r := n.left.value, n.right.value;
      PaintRoomsExact(g, l, p);
      PaintRoomsExact(PaintRooms(g, l), r, p);
    }
  }

  /** Rooms inside a box are inside every box that contains it. */
  lemma RoomsWiden(n: Node, inner: Rect, outer: Rect)
    requires Within(inner, outer)
    ensures LeafRoomsIn(n, inner) ==> LeafRoomsIn(n, outer)
    ensures RoomsWithin(n, inner) ==> RoomsWithin(n, outer)
    decreases n
  {
    if n.left.Some? { RoomsWiden(n.left.value, inner, outer); }
    if n.right.Some? { RoomsWiden(n.right.value, inner, outer); }
  }

  /** CreateRooms puts each leaf's room inside the leaf with a margin, so
      the rooms of leaves inside `box` lie inside `box`. */
  lemma {:induction false} LeafRoomsInside(n: Node, n': Node, box: Rect)
    requires Furnishes(n, n') && LeavesIn(n, box)
    ensures LeafRoomsIn(n', Shrink(box)) && LeafRoomsIn(n', box)
    decreases n
  {
    if !n.IsLeaf() {
      LeafRoomsInside(n.left.value, n'.left.value, box);
      LeafRoomsInside(n.right.value, n'.right.value, box);
    }
  }
}
