// The space partitioner: `SplitLeaf` cuts a rectangle recursively into a
// full binary tree of rectangles whose cut sides are bounded by minLeaf and
// maxLeaf.  `Split` is the value-level specification the generator's
// SplitLeaf method is proved against.

module Partition {
  import opened Wrappers
  import opened Geometry
  import Random

  /** A node of the BSP tree (the generator's Rect record): its area, its
      two children once it has been cut, and the room carved in it.  The
      record's `hasRoom` flag is set exactly when `room` is, so the two are
      one field here: HasRoom() is `room.Some?`. */
  datatype Node = Node(area: Rect, left: Option<Node>, right: Option<Node>, room: Option<Rect>) {
    predicate IsLeaf() { left.None? && right.None? }
    predicate HasRoom() { room.Some? }
  }

  /** `std::make_unique<Rect>(Rect{x, y, w, h})`: no children, no room. */
  function Fresh(r: Rect): Node {
    Node(r, None, None, None)
  }

  /** The side a cut runs across: the height for a horizontal cut. */
  function CutSide(r: Rect, splitH: bool): int {
    if splitH then r.h else r.w
  }

  /** The orientation rule of SplitLeaf, as written: the INTEGER quotient
      of the two sides is compared with 1.25. */
  function Orientation(r: Rect, coin: bool): (splitH: bool)
    requires r.w >= 1 && r.h >= 1
    ensures r.w >= 2 * r.h ==> !splitH
    ensures r.h >= 2 * r.w ==> splitH
  {
    QuotientAtLeastTwo(r.w, r.h);
    QuotientAtLeastTwo(r.h, r.w);
    if r.w > r.h && (r.w / r.h) as real >= 1.25 then false
    else if r.h > r.w && (r.h / r.w) as real >= 1.25 then true
    else coin
  }

  lemma QuotientAtLeastTwo(a: int, b: int)
    requires a >= 1 && b >= 1
    ensures (a / b) as real >= 1.25 <==> a >= 2 * b
  {
    var q, m := a / b, a % b;
    assert a == b * q + m && 0 <= m < b;
    if q >= 2 {
      assert b * q >= b * 2;
    } else {
      assert b * q <= b * 1;
    }
  }

  /** Because the quotient is truncated, the override fires only when the
      longer side is at least twice the shorter one. */
  lemma OrientationRule(r: Rect, coin: bool)
    requires r.w >= 1 && r.h >= 1
    ensures Orientation(r, coin) ==
      (if r.w >= 2 * r.h then false else if r.h >= 2 * r.w then true else coin)
  {
    QuotientAtLeastTwo(r.w, r.h);
    QuotientAtLeastTwo(r.h, r.w);
  }

  /** `a` and `b` are `p` cut across the chosen side at offset CutSide(a):
      same origin, same other side, extents s and CutSide(p) - s. */
  predicate CutAlong(p: Rect, a: Rect, b: Rect, splitH: bool) {
    if splitH then a == Rect(p.x, p.y, p.w, a.h) && b == Rect(p.x, p.y + a.h, p.w, p.h - a.h)
    else a == Rect(p.x, p.y, a.w, p.h) && b == Rect(p.x + a.w, p.y, p.w - a.w, p.h)
  }

  /** The cut offset was drawn from [minLeaf, min(maxLeaf, CutSide(p) - minLeaf)]. */
  predicate CutBounds(p: Rect, a: Rect, splitH: bool, minLeaf: int, maxLeaf: int) {
    minLeaf <= CutSide(a, splitH) <= Min(maxLeaf, CutSide(p, splitH) - minLeaf)
  }

  predicate ValidCut(p: Rect, a: Rect, b: Rect, minLeaf: int, maxLeaf: int) {
    || (CutAlong(p, a, b, true) && CutBounds(p, a, true, minLeaf, maxLeaf))
    || (CutAlong(p, a, b, false) && CutBounds(p, a, false, minLeaf, maxLeaf))
  }

  /** Every node has zero or two children, and every cut is valid. */
  predicate IsBsp(n: Node, minLeaf: int, maxLeaf: int)
    decreases n
  {
    if n.IsLeaf() then true
    else
      && n.left.Some? && n.right.Some?
      && ValidCut(n.area, n.left.value.area, n.right.value.area, minLeaf, maxLeaf)
      && IsBsp(n.left.value, minLeaf, maxLeaf)
      && IsBsp(n.right.value, minLeaf, maxLeaf)
  }

  /** A full binary tree: every node has zero or two children. */
  predicate Full(n: Node)
    decreases n
  {
    if n.IsLeaf() then true
    else n.left.Some? && n.right.Some? && Full(n.left.value) && Full(n.right.value)
  }

  /** No node of the tree has a room yet. */
  predicate NoRooms(n: Node)
    decreases n
  {
    && n.room.None?
    && (n.left.Some? ==> NoRooms(n.left.value))
    && (n.right.Some? ==> NoRooms(n.right.value))
  }

  /** Every leaf is at least k by k. */
  predicate LeavesAtLeast(n: Node, k: int)
    decreases n
  {
    if n.IsLeaf() then n.area.w >= k && n.area.h >= k
    else
      && (n.left.Some? ==> LeavesAtLeast(n.left.value, k))
      && (n.right.Some? ==> LeavesAtLeast(n.right.value, k))
  }

  /** The leaves from left to right. */
  function Leaves(n: Node): seq<Rect>
    decreases n
  {
    if n.IsLeaf() then [n.area]
    else
      (if n.left.Some? then Leaves(n.left.value) else []) +
      (if n.right.Some? then Leaves(n.right.value) else [])
  }

  /** The two halves of `p` for a cut at offset `cut`. */
  function Halves(p: Rect, splitH: bool, cut: int): (r: (Rect, Rect))
    ensures CutAlong(p, r.0, r.1, splitH) && CutSide(r.0, splitH) == cut
  {
    if splitH then (Rect(p.x, p.y, p.w, cut), Rect(p.x, p.y + cut, p.w, p.h - cut))
    else (Rect(p.x, p.y, cut, p.h), Rect(p.x + cut, p.y, p.w - cut, p.h))
  }

  /** `SplitLeaf(leaf, minLeaf, maxLeaf)`: whether the node was cut, the
      node afterwards, and the random state afterwards.  SplitShape states
      what the result is. */
  function Split(n: Node, minLeaf: int, maxLeaf: int, g: Random.Rng): (r: (bool, Node, Random.Rng))
    requires 1 <= minLeaf <= maxLeaf
    requires n.area.w >= 1 && n.area.h >= 1
    ensures r.1.area == n.area
    decreases n.area.w + n.area.h
  {
    if !n.IsLeaf() then (false, n, g)
    else
      var (coin, g1) := Random.Bool(g);
      var splitH := Orientation(n.area, coin);
      var max := CutSide(n.area, splitH) - minLeaf;
      if max <= minLeaf then (false, n, g1)
      else
        var (cut, g2) := Random.Uniform(g1, minLeaf, Min(maxLeaf, max));
        var (a, b) := Halves(n.area, splitH, cut);
        var (_, l, g3) := Split(Fresh(a), minLeaf, maxLeaf, g2);
        var (_, rt, g4) := Split(Fresh(b), minLeaf, maxLeaf, g3);
        (true, n.(left := Some(l), right := Some(rt)), g4)
  }

  /** One step of Split on a leaf that is cut: the coin, the cut offset,
      then the two halves split in turn. */
  lemma SplitCutStep(n: Node, minLeaf: int, maxLeaf: int, g: Random.Rng, coin: bool, g1: Random.Rng, cut: int, g2: Random.Rng)
    requires 1 <= minLeaf <= maxLeaf
    requires n.area.w >= 1 && n.area.h >= 1 && n.IsLeaf()
    requires (coin, g1) == Random.Bool(g)
    requires CutSide(n.area, Orientation(n.area, coin)) - minLeaf > minLeaf
    requires (cut, g2) == Random.Uniform(g1, minLeaf, Min(maxLeaf, CutSide(n.area, Orientation(n.area, coin)) - minLeaf))
    ensures var (a, b) := Halves(n.area, Orientation(n.area, coin), cut);
      var (_, l, g3) := Split(Fresh(a), minLeaf, maxLeaf, g2);
      var (_, rt, g4) := Split(Fresh(b), minLeaf, maxLeaf, g3);
      Split(n, minLeaf, maxLeaf, g) == (true, n.(left := Some(l), right := Some(rt)), g4)
  {
    var splitH := Orientation(n.area, coin);
    var (a, b) := Halves(n.area, splitH, cut);
    var (_, l, g3) := Split(Fresh(a), minLeaf, maxLeaf, g2);
    var (_, rt, g4) := Split(Fresh(b), minLeaf, maxLeaf, g3);
    var max := CutSide(n.area, splitH) - minLeaf;
    assert Random.Bool(g) == (coin, g1);
    assert Random.Uniform(g1, minLeaf, Min(maxLeaf, max)) == (cut, g2);
    assert Split(n, minLeaf, maxLeaf, g) == (true, n.(left := Some(l), right := Some(rt)), g4);
  }

  /** What SplitLeaf does to a node: nothing to a node that has children
      or whose chosen side is too short to cut; otherwise the node gets
      exactly two children, cut along the chosen axis within the bounds. */
  lemma SplitShape(n: Node, minLeaf: int, maxLeaf: int, g: Random.Rng)
    requires 1 <= minLeaf <= maxLeaf
    requires n.area.w >= 1 && n.area.h >= 1
    ensures var r := Split(n, minLeaf, maxLeaf, g);
      && (r.0 <==> n.IsLeaf() && CutSide(n.area, Orientation(n.area, Random.Bool(g).0)) - minLeaf > minLeaf)
      && (!r.0 ==> r.1 == n)
      && (r.0 ==>
            && r.1.room == n.room && r.1.left.Some? && r.1.right.Some?
            && CutAlong(n.area, r.1.left.value.area, r.1.right.value.area, Orientation(n.area, Random.Bool(g).0))
            && CutBounds(n.area, r.1.left.value.area, Orientation(n.area, Random.Bool(g).0), minLeaf, maxLeaf))
  {
  }

  /** The subtree SplitLeaf grows below a leaf is a BSP tree, and it adds
      no rooms. */
  lemma {:induction false} SplitIsBsp(n: Node, minLeaf: int, maxLeaf: int, g: Random.Rng)
    requires 1 <= minLeaf <= maxLeaf
    requires n.area.w >= 1 && n.area.h >= 1
    ensures n.IsLeaf() ==> IsBsp(Split(n, minLeaf, maxLeaf, g).1, minLeaf, maxLeaf)
    ensures NoRooms(n) ==> NoRooms(Split(n, minLeaf, maxLeaf, g).1)
    decreases n.area.w + n.area.h
  {
    var r := Split(n, minLeaf, maxLeaf, g);
    SplitShape(n, minLeaf, maxLeaf, g);
    if r.0 {
      var (coin, g1) := Random.Bool(g);
      var splitH := Orientation(n.area, coin);
      var max := CutSide(n.area, splitH) - minLeaf;
      var (cut, g2) := Random.Uniform(g1, minLeaf, Min(maxLeaf, max));
      var (a, b) := Halves(n.area, splitH, cut);
      var g3 := Split(Fresh(a), minLeaf, maxLeaf, g2).2;
      assert r.1.left.value == Split(Fresh(a), minLeaf, maxLeaf, g2).1;
      assert r.1.right.value == Split(Fresh(b), minLeaf, maxLeaf, g3).1;
      SplitIsBsp(Fresh(a), minLeaf, maxLeaf, g2);
      SplitIsBsp(Fresh(b), minLeaf, maxLeaf, g3);
    }
  }

  /** A valid cut tiles its parent: every tile of the parent lies in
      exactly one half, and both halves are at least minLeaf across the cut. */
  lemma CutTiles(p: Rect, a: Rect, b: Rect, minLeaf: int, maxLeaf: int, q: Point)
    requires minLeaf >= 1 && ValidCut(p, a, b, minLeaf, maxLeaf)
    ensures Contains(p, q) <==> Contains(a, q) || Contains(b, q)
    ensures !(Contains(a, q) && Contains(b, q))
    ensures Within(a, p) && Within(b, p)
    ensures p.w >= 1 && p.h >= 1 ==> a.w >= 1 && a.h >= 1 && b.w >= 1 && b.h >= 1
  {}

  /** Both halves of a cut are at least minLeaf across the cut, and their
      extents add up to the parent's. */
  lemma CutSides(p: Rect, a: Rect, b: Rect, splitH: bool, minLeaf: int, maxLeaf: int)
    requires CutAlong(p, a, b, splitH) && CutBounds(p, a, splitH, minLeaf, maxLeaf)
    ensures CutSide(a, splitH) >= minLeaf && CutSide(b, splitH) >= minLeaf
    ensures CutSide(a, splitH) + CutSide(b, splitH) == CutSide(p, splitH)
    ensures CutSide(a, !splitH) == CutSide(b, !splitH) == CutSide(p, !splitH)
  {}

  lemma BspIsFull(n: Node, minLeaf: int, maxLeaf: int)
    requires IsBsp(n, minLeaf, maxLeaf)
    ensures Full(n)
  {}

  /** When the root is at least k by k and minLeaf >= k, every leaf is too. */
  lemma {:induction false} LeafSizes(n: Node, minLeaf: int, maxLeaf: int, k: int)
    requires IsBsp(n, minLeaf, maxLeaf) && k <= minLeaf
    requires n.area.w >= k && n.area.h >= k
    ensures LeavesAtLeast(n, k)
    decreases n
  {
    if !n.IsLeaf() {
      LeafSizes(n.left.value, minLeaf, maxLeaf, k);
      LeafSizes(n.right.value, minLeaf, maxLeaf, k);
    }
  }

  /** Every leaf lies inside the root. */
  lemma {:induction false} LeavesWithin(n: Node, minLeaf: int, maxLeaf: int, i: nat)
    requires IsBsp(n, minLeaf, maxLeaf) && minLeaf >= 1 && i < |Leaves(n)|
    ensures Within(Leaves(n)[i], n.area)
    decreases n
  {
    if !n.IsLeaf() {
      var l, r := n.left.value, n.right.value;
      CutTiles(n.area, l.area, r.area, minLeaf, maxLeaf, Point(0, 0));
      if i < |Leaves(l)| {
        LeavesWithin(l, minLeaf, maxLeaf, i);
      } else {
        LeavesWithin(r, minLeaf, maxLeaf, i - |Leaves(l)|);
      }
    }
  }

  /** Every tile of the root lies in some leaf. */
  lemma {:induction false} CoveringLeaf(n: Node, minLeaf: int, maxLeaf: int, q: Point)
    requires IsBsp(n, minLeaf, maxLeaf) && minLeaf >= 1 && Contains(n.area, q)
    ensures exists i :: 0 <= i < |Leaves(n)| && Contains(Leaves(n)[i], q)
    decreases n
  {
    if n.IsLeaf() {
      assert Leaves(n)[0] == n.area;
    } else {
      var l, r := n.left.value, n.right.value;
      CutTiles(n.area, l.area, r.area, minLeaf, maxLeaf, q);
      var ls, rs := Leaves(l), Leaves(r);
      assert Leaves(n) == ls + rs;
      if Contains(l.area, q) {
        CoveringLeaf(l, minLeaf, maxLeaf, q);
        var i :| 0 <= i < |ls| && Contains(ls[i], q);
        assert Leaves(n)[i] == ls[i];
      } else {
        CoveringLeaf(r, minLeaf, maxLeaf, q);
        var i :| 0 <= i < |rs| && Contains(rs[i], q);
        assert Leaves(n)[|ls| + i] == rs[i];
      }
    }
  }

  /** The leaves cover the root: a tile lies in the root exactly when it
      lies in some leaf. */
  lemma LeavesCover(n: Node, minLeaf: int, maxLeaf: int, q: Point)
    requires IsBsp(n, minLeaf, maxLeaf) && minLeaf >= 1
    ensures Contains(n.area, q) <==> exists i :: 0 <= i < |Leaves(n)| && Contains(Leaves(n)[i], q)
  {
    if Contains(n.area, q) {
      CoveringLeaf(n, minLeaf, maxLeaf, q);
    }
    forall i | 0 <= i < |Leaves(n)| && Contains(Leaves(n)[i], q)
      ensures Contains(n.area, q)
    {
      LeavesWithin(n, minLeaf, maxLeaf, i);
      WithinContains(Leaves(n)[i], n.area, q);
    }
  }

  /** Distinct leaves do not overlap. */
  lemma {:induction false} LeavesDisjoint(n: Node, minLeaf: int, maxLeaf: int, i: nat, j: nat, q: Point)
    requires IsBsp(n, minLeaf, maxLeaf) && minLeaf >= 1
    requires i < j < |Leaves(n)|
    ensures !(Contains(Leaves(n)[i], q) && Contains(Leaves(n)[j], q))
    decreases n
  {
    if !n.IsLeaf() {
      var l, r := n.left.value, n.right.value;
      var ls, rs := Leaves(l), Leaves(r);
      assert Leaves(n) == ls + rs;
      if j < |ls| {
        assert Leaves(n)[i] == ls[i] && Leaves(n)[j] == ls[j];
        LeavesDisjoint(l, minLeaf, maxLeaf, i, j, q);
      } else if i >= |ls| {
        assert Leaves(n)[i] == rs[i - |ls|] && Leaves(n)[j] == rs[j - |ls|];
        LeavesDisjoint(r, minLeaf, maxLeaf, i - |ls|, j - |ls|, q);
      } else {
        assert Leaves(n)[i] == ls[i] && Leaves(n)[j] == rs[j - |ls|];
        CutTiles(n.area, l.area, r.area, minLeaf, maxLeaf, q);
        LeavesWithin(l, minLeaf, maxLeaf, i);
        LeavesWithin(r, minLeaf, maxLeaf, j - |ls|);
        if Contains(ls[i], q) {
          WithinContains(ls[i], l.area, q);
        }
        if Contains(rs[j - |ls|], q) {
          WithinContains(rs[j - |ls|], r.area, q);
        }
      }
    }
  }
}
