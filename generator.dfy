// The generator object: `DungeonGenerator` keeps the dimensions, the tile
// grid, the random engine and the BSP tree, and `Generate` refills them.
// Every method is proved to do exactly what the pure model of its phase
// says (Partition.Split, Rooms.Furnish and Rooms.PaintRooms, Corridors.Dig,
// Corridors.PickPoint, Tiles.CarveRow and Tiles.CarveColumn, Tiles.Render),
// so the properties proved about the model hold of the object.

module Generator {
  import opened Wrappers
  import opened Geometry
  import opened Tiles
  import opened Partition
  import opened Rooms
  import opened Corridors
  import Random
  import Dungeon

  /** The seed a default-constructed std::mt19937 starts from. */
  const DefaultSeed: Random.uint32 := 5489

  /** The tiles of a grid array, row y and column x at [y][x]. */
  ghost function View(a: array2<Tile>): (g: Grid)
    reads a
    ensures Rectangular(g) && |g| == a.Length0 && (a.Length0 > 0 ==> Width(g) == a.Length1)
    ensures forall y, x :: 0 <= y < a.Length0 && 0 <= x < a.Length1 ==> g[y][x] == a[y, x]
  {
    seq(a.Length0, y requires 0 <= y < a.Length0 reads a =>
          seq(a.Length1, x requires 0 <= x < a.Length1 reads a => a[y, x]))
  }

  /** Equal tile by tile, equal as grids. */
  lemma ViewIs(a: array2<Tile>, g: Grid)
    requires Rectangular(g) && |g| == a.Length0 && (a.Length0 > 0 ==> Width(g) == a.Length1)
    requires forall y, x :: 0 <= y < a.Length0 && 0 <= x < a.Length1 ==> g[y][x] == a[y, x]
    ensures View(a) == g
  {
    Extensionality(View(a), g);
  }

  class DungeonGenerator {
    var width: int
    var height: int
    var grid: array2<Tile>
    var rng: Random.Rng
    var root: Option<Node>

    /** The grid has `height` rows of `width` tiles. */
    ghost predicate Valid()
      reads this
    {
      grid.Length0 == height && grid.Length1 == width
    }

    /** `DungeonGenerator() = default`: no tiles, no tree, the engine at its
        default seed.  The engine's output function is a parameter. */
    constructor(engine: Random.Oracle)
      ensures Valid() && width == 0 && height == 0 && root.None?
      ensures rng == Random.Seeded(engine, DefaultSeed)
    {
      width := 0;
      height := 0;
      grid := new Tile[0, 0];
      rng := Random.Seeded(engine, DefaultSeed);
      root := None;
    }

    /** `GetTile(x, y)`. */
    method GetTile(x: int, y: int) returns (t: Tile)
      requires Valid() && 0 <= x < width && 0 <= y < height
      ensures t == View(grid)[y][x]
    {
      t := grid[y, x];
    }

    method GetWidth() returns (w: int)
      ensures w == width
    {
      w := width;
    }

    method GetHeight() returns (h: int)
      ensures h == height
    {
      h := height;
    }

    /** `std::uniform_int_distribution<int>(lo, hi)(rng)`. */
    method Draw(lo: int, hi: int) returns (v: int)
      requires lo <= hi
      modifies this`rng
      ensures (v, rng) == Random.Uniform(old(rng), lo, hi)
    {
      v := lo + rng.oracle(rng.seed, rng.draws, lo, hi) % (hi - lo + 1);
      rng := rng.(draws := rng.draws + 1);
    }

    /** `RandomBool()`. */
    method RandomBool() returns (b: bool)
      modifies this`rng
      ensures (b, rng) == Random.Bool(old(rng))
    {
      var v := Draw(0, 1);
      b := v == 1;
    }

    /** The first half of `Generate`: the new dimensions, a grid full of
        walls, the engine reseeded. */
    method Reset(w: nat, h: nat, seed: Random.uint32)
      modifies this
      ensures Valid() && width == w && height == h && fresh(grid)
      ensures View(grid) == Filled(w, h, Wall)
      ensures rng == Random.Seeded(old(rng.oracle), seed) && root == old(root)
    {
      width := w;
      height := h;
      grid := new Tile[h, w]((_, _) => Wall);
      ViewIs(grid, Filled(w, h, Wall));
      rng := Random.Seeded(rng.oracle, seed);
    }

    /** `Generate(w, h, minLeaf = 8, maxLeaf = 20, seed)`: an all-Wall grid, the
        engine reseeded, a fresh root, then the three phases.  The new
        state is the one Dungeon.Generate describes. */
    method Generate(w: int, h: int, minLeaf: int := 8, maxLeaf: int := 20, seed: Random.uint32)
      requires Dungeon.Generable(w, h, minLeaf, maxLeaf, rng.oracle, seed)
      modifies this
      ensures Valid() && width == w && height == h
      ensures var o := Dungeon.Generate(w, h, minLeaf, maxLeaf, seed, old(rng.oracle));
        root == Some(o.tree) && View(grid) == o.grid && rng == o.rng
    {
      Reset(w, h, seed);
      ghost var walls := View(grid);
      ghost var g0 := rng;
      var t0 := Dungeon.Root(width, height);
      var _, t1 := SplitLeaf(t0, minLeaf, maxLeaf);
      ghost var g1 := rng;
      Dungeon.Partitioned(w, h, minLeaf, maxLeaf, g0);
      BspLeavesIn(t1, minLeaf, maxLeaf, Rect(0, 0, w, h));
      var t2 := CreateRooms(t1);
      ghost var g2 := rng;
      Dungeon.GenerateSteps(w, h, minLeaf, maxLeaf, seed, old(rng.oracle), t1, g1, t2, g2);
      DigCorridors(t2);
      root := Some(t2);
    }

    /** `SplitLeaf(leaf, minLeaf, maxLeaf)`: the node after the recursive
        cuts, and whether it was cut. */
    method SplitLeaf(leaf: Node, minLeaf: int, maxLeaf: int) returns (split: bool, leaf': Node)
      requires 1 <= minLeaf <= maxLeaf && leaf.area.w >= 1 && leaf.area.h >= 1
      modifies this`rng
      ensures (split, leaf', rng) == Split(leaf, minLeaf, maxLeaf, old(rng))
      decreases leaf.area.w + leaf.area.h
    {
      if !leaf.IsLeaf() {
        return false, leaf;
      }
      var area := leaf.area;
      var coin := RandomBool();
      ghost var g1 := rng;
      var splitH := coin;
      if area.w > area.h && (area.w / area.h) as real >= 1.25 {
        splitH := false;
      } else if area.h > area.w && (area.h / area.w) as real >= 1.25 {
        splitH := true;
      }
      assert splitH == Orientation(area, coin);
      var max := (if splitH then area.h else area.w) - minLeaf;
      if max <= minLeaf {
        return false, leaf;
      }
      var cut := Draw(minLeaf, Min(maxLeaf, max));
      var a, b;
      if splitH {
        a := Rect(area.x, area.y, area.w, cut);
        b := Rect(area.x, area.y + cut, area.w, area.h - cut);
      } else {
        a := Rect(area.x, area.y, cut, area.h);
        b := Rect(area.x + cut, area.y, area.w - cut, area.h);
      }
      assert (a, b) == Halves(area, splitH, cut);
      ghost var g2 := rng;
      var _, l := SplitLeaf(Fresh(a), minLeaf, maxLeaf);
      ghost var g3 := rng;
      var _, r := SplitLeaf(Fresh(b), minLeaf, maxLeaf);
      split, leaf' := true, leaf.(left := Some(l), right := Some(r));
      SplitCutStep(leaf, minLeaf, maxLeaf, old(rng), coin, g1, cut, g2);
    }

    /** `CreateRooms(leaf)`: the tree with a room in every leaf, and the
        rooms' tiles set to Floor. */
    method CreateRooms(leaf: Node) returns (leaf': Node)
      requires Valid() && Full(leaf) && LeavesAtLeast(leaf, 5) && LeavesIn(leaf, Bounds(View(grid)))
      modifies this`rng, grid
      ensures (leaf', rng) == Furnish(leaf, old(rng))
      ensures LeafRoomsIn(leaf', Bounds(old(View(grid))))
      ensures View(grid) == PaintRooms(old(View(grid)), leaf')
      decreases leaf
    {
      if !leaf.IsLeaf() {
        ghost var g0, v0 := rng, View(grid);
        var l := CreateRooms(leaf.left.value);
        ghost var g1, v1 := rng, View(grid);
        assert Bounds(v1) == Bounds(v0);
        var r := CreateRooms(leaf.right.value);
        leaf' := leaf.(left := Some(l), right := Some(r));
        assert (l, g1) == Furnish(leaf.left.value, g0);
        assert Furnish(leaf, g0) == (leaf', rng);
        assert LeafRoomsIn(leaf', Bounds(v0));
        assert PaintRooms(v0, leaf') == PaintRooms(v1, r);
        return;
      }
      var area := leaf.area;
      ghost var g0 := rng;
      var roomW := Draw(3, area.w - 2);
      ghost var g1 := rng;
      var roomH := Draw(3, area.h - 2);
      ghost var g2 := rng;
      var rx := Draw(1, area.w - roomW - 1);
      ghost var g3 := rng;
      var ry := Draw(1, area.h - roomH - 1);
      var roomX, roomY := area.x + rx, area.y + ry;
      var room := Rect(roomX, roomY, roomW, roomH);
      leaf' := leaf.(room := Some(room));
      FurnishLeaf(leaf, g0, roomW, g1, roomH, g2, rx, g3, ry, rng);
      assert Within(room, Bounds(View(grid)));
      FillRoom(room);
    }

    /** The nested loops of `CreateRooms` over the room's rows and columns. */
    method FillRoom(room: Rect)
      requires Valid() && Within(room, Bounds(View(grid)))
      modifies grid
      ensures View(grid) == FillRect(old(View(grid)), room)
    {
      ghost var before := View(grid);
      var y := room.y;
      while y < room.y + room.h
        invariant room.y <= y <= room.y + room.h || room.h < 0
        invariant forall yy, xx :: 0 <= yy < grid.Length0 && 0 <= xx < grid.Length1 ==>
          grid[yy, xx] == (if Contains(room, Point(xx, yy)) && yy < y then Floor else before[yy][xx])
      {
        var x := room.x;
        while x < room.x + room.w
          invariant room.x <= x <= room.x + room.w || room.w < 0
          invariant forall yy, xx :: 0 <= yy < grid.Length0 && 0 <= xx < grid.Length1 ==>
            grid[yy, xx] ==
              (if Contains(room, Point(xx, yy)) && (yy < y || (yy == y && xx < x)) then Floor else before[yy][xx])
        {
          grid[y, x] := Floor;
          x := x + 1;
        }
        y := y + 1;
      }
      ViewIs(grid, FillRect(before, room));
    }

    /** `DigCorridors(leaf)`: the grid after every corridor below `leaf`. */
    method DigCorridors(leaf: Node)
      requires Valid() && DigReady(leaf) && RoomsWithin(leaf, Bounds(View(grid)))
      modifies this`rng, grid
      ensures (View(grid), rng) == Dig(old(View(grid)), leaf, old(rng))
      decreases leaf
    {
      if leaf.left.None? || leaf.right.None? {
        return;
      }
      DigCorridors(leaf.left.value);
      DigCorridors(leaf.right.value);
      var p1 := ChoosePointInRoom(leaf.left.value);
      var p2 := ChoosePointInRoom(leaf.right.value);
      AnyRoomWithin(leaf.left.value, Bounds(View(grid)), p1);
      AnyRoomWithin(leaf.right.value, Bounds(View(grid)), p2);
      var horizontalFirst := RandomBool();
      if horizontalFirst {
        CarveHorizontal(p1.x, p2.x, p1.y);
        CarveVertical(p1.y, p2.y, p2.x);
      } else {
        CarveVertical(p1.y, p2.y, p1.x);
        CarveHorizontal(p1.x, p2.x, p2.y);
      }
    }

    /** `ChoosePointInRoom(node)`: the loop descends by coin flips to a node
        with a room, then a column and a row of that room are drawn. */
    method ChoosePointInRoom(node: Node) returns (p: Point)
      requires Descendable(node)
      modifies this`rng
      ensures (p, rng) == PickPoint(node, old(rng))
    {
      var cur := node;
      while cur.room.None?
        invariant Descendable(cur)
        invariant PickPoint(cur, rng) == PickPoint(node, old(rng))
        decreases cur
      {
        var goLeft := RandomBool();
        cur := if goLeft then cur.left.value else cur.right.value;
      }
      var r := cur.room.value;
      var x := Draw(r.x, r.x + r.w - 1);
      var y := Draw(r.y, r.y + r.h - 1);
      p := Point(x, y);
    }

    /** `CarveHorizontal(x1, x2, y)`: the ends in order, then the run. */
    method CarveHorizontal(x1: int, x2: int, y: int)
      requires Valid() && 0 <= y < height && 0 <= x1 < width && 0 <= x2 < width
      modifies grid
      ensures View(grid) == CarveRow(old(View(grid)), x1, x2, y)
    {
      ghost var before := View(grid);
      var lo, hi := x1, x2;
      if hi < lo {
        lo, hi := hi, lo;
      }
      var x := lo;
      while x <= hi
        invariant lo <= x <= hi + 1
        invariant forall yy, xx :: 0 <= yy < grid.Length0 && 0 <= xx < grid.Length1 ==>
          grid[yy, xx] == (if yy == y && lo <= xx < x then Floor else before[yy][xx])
      {
        grid[y, x] := Floor;
        x := x + 1;
      }
      ViewIs(grid, CarveRow(before, x1, x2, y));
    }

    /** `CarveVertical(y1, y2, x)`: the ends in order, then the run. */
    method CarveVertical(y1: int, y2: int, x: int)
      requires Valid() && 0 <= x < width && 0 <= y1 < height && 0 <= y2 < height
      modifies grid
      ensures View(grid) == CarveColumn(old(View(grid)), y1, y2, x)
    {
      ghost var before := View(grid);
      var lo, hi := y1, y2;
      if hi < lo {
        lo, hi := hi, lo;
      }
      var y := lo;
      while y <= hi
        invariant lo <= y <= hi + 1
        invariant forall yy, xx :: 0 <= yy < grid.Length0 && 0 <= xx < grid.Length1 ==>
          grid[yy, xx] == (if xx == x && lo <= yy < y then Floor else before[yy][xx])
      {
        grid[y, x] := Floor;
        y := y + 1;
      }
      ViewIs(grid, CarveColumn(before, y1, y2, x));
    }

    /** `ToString()`: one line of characters per row. */
    method ToString() returns (s: string)
      requires Valid()
      ensures s == Render(View(grid))
    {
      ghost var g := View(grid);
      s := [];
      var y := 0;
      while y < height
        invariant 0 <= y <= height
        invariant s == Render(g[..y])
      {
        var x := 0;
        while x < width
          invariant 0 <= x <= width
          invariant s == Render(g[..y]) + RowText(g[y][..x])
        {
          var t := GetTile(x, y);
          assert RowText(g[y][..x + 1]) == RowText(g[y][..x]) + [TileToChar(t)];
          s := s + [TileToChar(t)];
          x := x + 1;
        }
        assert g[..y + 1][..y] == g[..y] && g[y][..x] == g[y];
        s := s + ['\n'];
        y := y + 1;
      }
      assert g[..y] == g;
    }
  }
}
