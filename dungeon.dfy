// One whole run of `Generate`, as a value: partition the grid, furnish the
// leaves, paint the rooms onto an all-Wall grid and dig the corridors.
// The theorems here are the generator's promises about its result: the
// dimensions, the tree's geometry, rooms inside their leaves, a Wall
// border, and a single 4-connected set of Floor tiles.

module Dungeon {
  import opened Wrappers
  import opened Geometry
  import opened Tiles
  import opened Paths
  import opened Partition
  import opened Rooms
  import opened Corridors
  import Random

  /** `_root = make_unique<Rect>(Rect{0, 0, Width, Height})`. */
  function Root(w: int, h: int): (n: Node)
    ensures n.area == Rect(0, 0, w, h) && n.IsLeaf() && NoRooms(n)
  {
    Fresh(Rect(0, 0, w, h))
  }

  /** The arguments under which every sampling range the run draws from is
      non-empty: minLeaf at least 1 and at most maxLeaf (the cut range),
      a grid at least 1 by 1 (the aspect-ratio quotient), and leaves at
      least 5 by 5 (the room ranges).  The last depends on the draws;
      SufficientArguments gives a condition that does not. */
  predicate Generable(w: int, h: int, minLeaf: int, maxLeaf: int, oracle: Random.Oracle, seed: Random.uint32) {
    && 1 <= minLeaf <= maxLeaf && w >= 1 && h >= 1
    && LeavesAtLeast(Split(Root(w, h), minLeaf, maxLeaf, Random.Seeded(oracle, seed)).1, 5)
  }

  /** The state `Generate` leaves behind: the tree, the grid and the
      random source. */
  datatype Outcome = Outcome(tree: Node, grid: Grid, rng: Random.Rng)

  /** The partition of a fresh root is a BSP tree of the whole grid with
      no rooms. */
  lemma Partitioned(w: int, h: int, minLeaf: int, maxLeaf: int, g: Random.Rng)
    requires 1 <= minLeaf <= maxLeaf && w >= 1 && h >= 1
    ensures var t := Split(Root(w, h), minLeaf, maxLeaf, g).1;
      IsBsp(t, minLeaf, maxLeaf) && NoRooms(t) && Full(t) && t.area == Rect(0, 0, w, h)
  {
    var t := Split(Root(w, h), minLeaf, maxLeaf, g).1;
    SplitIsBsp(Root(w, h), minLeaf, maxLeaf, g);
    BspIsFull(t, minLeaf, maxLeaf);
  }

  /** The facts about the partitioned and furnished tree that the later
      phases need. */
  lemma PhasesReady(w: int, h: int, minLeaf: int, maxLeaf: int, t1: Node, t2: Node)
    requires 1 <= minLeaf <= maxLeaf && w >= 1 && h >= 1
    requires IsBsp(t1, minLeaf, maxLeaf) && NoRooms(t1) && t1.area == Rect(0, 0, w, h)
    requires Furnishes(t1, t2)
    ensures Furnished(t2) && Descendable(t2) && DigReady(t2)
    ensures IsBsp(t2, minLeaf, maxLeaf) && t2.area == Rect(0, 0, w, h)
    ensures LeafRoomsIn(t2, Shrink(Rect(0, 0, w, h))) && RoomsWithin(t2, Shrink(Rect(0, 0, w, h)))
    ensures LeafRoomsIn(t2, Rect(0, 0, w, h)) && RoomsWithin(t2, Rect(0, 0, w, h))
    ensures forall p :: AnyRoom(t2, p) ==> Contains(Shrink(Rect(0, 0, w, h)), p)
  {
    var box := Rect(0, 0, w, h);
    BspLeavesIn(t1, minLeaf, maxLeaf, box);
    RoomsInsideMargin(t1, t2, box);
    RoomsWiden(t2, Shrink(box), box);
    FurnishedAfterFurnish(t1, t2);
    FurnishedReady(t2);
    FurnishKeepsShape(t1, t2, minLeaf, maxLeaf);
    forall p | AnyRoom(t2, p) ensures Contains(Shrink(box), p) {
      AnyRoomWithin(t2, Shrink(box), p);
    }
  }

  /** `Generate(w, h, minLeaf, maxLeaf, seed)` with the engine `oracle`. */
  function Generate(w: int, h: int, minLeaf: int, maxLeaf: int, seed: Random.uint32, oracle: Random.Oracle): (r: Outcome)
    requires Generable(w, h, minLeaf, maxLeaf, oracle, seed)
    ensures Rectangular(r.grid) && |r.grid| == h && Width(r.grid) == w
  {
    var (_, t1, g1) := Split(Root(w, h), minLeaf, maxLeaf, Random.Seeded(oracle, seed));
    Partitioned(w, h, minLeaf, maxLeaf, Random.Seeded(oracle, seed));
    var (t2, g2) := Furnish(t1, g1);
    PhasesReady(w, h, minLeaf, maxLeaf, t1, t2);
    var walls := Filled(w, h, Wall);
    var rooms := PaintRooms(walls, t2);
    var (grid, g3) := Dig(rooms, t2, g2);
    Outcome(t2, grid, g3)
  }

  /** The tree of a generated dungeon: a BSP partition of the whole grid
      whose every leaf, and no other node, holds a room that fits the leaf
      with a one-tile margin. */
  lemma GeneratedTree(w: int, h: int, minLeaf: int, maxLeaf: int, seed: Random.uint32, oracle: Random.Oracle)
    requires Generable(w, h, minLeaf, maxLeaf, oracle, seed)
    ensures var t := Generate(w, h, minLeaf, maxLeaf, seed, oracle).tree;
      && t.area == Rect(0, 0, w, h) && IsBsp(t, minLeaf, maxLeaf) && Furnished(t)
      && Leaves(t) == Leaves(Split(Root(w, h), minLeaf, maxLeaf, Random.Seeded(oracle, seed)).1)
      && LeafRoomsIn(t, Shrink(Rect(0, 0, w, h)))
  {
    var (_, t1, g1) := Split(Root(w, h), minLeaf, maxLeaf, Random.Seeded(oracle, seed));
    Partitioned(w, h, minLeaf, maxLeaf, Random.Seeded(oracle, seed));
    var (t2, g2) := Furnish(t1, g1);
    PhasesReady(w, h, minLeaf, maxLeaf, t1, t2);
    FurnishKeepsShape(t1, t2, minLeaf, maxLeaf);
  }

  /** Dungeon.Generate phase by phase. */
  lemma GenerateSteps(w: int, h: int, minLeaf: int, maxLeaf: int, seed: Random.uint32, oracle: Random.Oracle,
                      t1: Node, g1: Random.Rng, t2: Node, g2: Random.Rng)
    requires Generable(w, h, minLeaf, maxLeaf, oracle, seed)
    requires t1 == Split(Root(w, h), minLeaf, maxLeaf, Random.Seeded(oracle, seed)).1
    requires g1 == Split(Root(w, h), minLeaf, maxLeaf, Random.Seeded(oracle, seed)).2
    requires Full(t1) && (t2, g2) == Furnish(t1, g1)
    ensures LeafRoomsIn(t2, Bounds(Filled(w, h, Wall)))
    ensures RoomsWithin(t2, Bounds(PaintRooms(Filled(w, h, Wall), t2))) && DigReady(t2)
    ensures var g := Dig(PaintRooms(Filled(w, h, Wall), t2), t2, g2);
      Generate(w, h, minLeaf, maxLeaf, seed, oracle) == Outcome(t2, g.0, g.1)
  {
    Partitioned(w, h, minLeaf, maxLeaf, Random.Seeded(oracle, seed));
    PhasesReady(w, h, minLeaf, maxLeaf, t1, t2);
  }

  /** After painting the rooms onto the all-Wall grid, a tile is Floor
      exactly when it lies in a room. */
  lemma RoomsOnWalls(w: int, h: int, t: Node, p: Point)
    requires w >= 1 && h >= 1 && Furnished(t) && LeafRoomsIn(t, Rect(0, 0, w, h))
    requires RoomsWithin(t, Rect(0, 0, w, h))
    ensures IsFloor(PaintRooms(Filled(w, h, Wall), t), p) <==> AnyRoom(t, p)
  {
    var walls := Filled(w, h, Wall);
    if InGrid(walls, p) {
      PaintRoomsExact(walls, t, p);
    } else if AnyRoom(t, p) {
      AnyRoomWithin(t, Rect(0, 0, w, h), p);
    }
  }

  /** Global connectivity: any two Floor tiles of a generated dungeon are
      joined by a 4-connected path of Floor tiles. */
  lemma SingleComponent(w: int, h: int, minLeaf: int, maxLeaf: int, seed: Random.uint32, oracle: Random.Oracle,
                          a: Point, b: Point)
    requires Generable(w, h, minLeaf, maxLeaf, oracle, seed)
    requires IsFloor(Generate(w, h, minLeaf, maxLeaf, seed, oracle).grid, a)
    requires IsFloor(Generate(w, h, minLeaf, maxLeaf, seed, oracle).grid, b)
    ensures Connected(Generate(w, h, minLeaf, maxLeaf, seed, oracle).grid, a, b)
  {
    var (_, t1, g1) := Split(Root(w, h), minLeaf, maxLeaf, Random.Seeded(oracle, seed));
    Partitioned(w, h, minLeaf, maxLeaf, Random.Seeded(oracle, seed));
    var (t2, g2) := Furnish(t1, g1);
    PhasesReady(w, h, minLeaf, maxLeaf, t1, t2);
    var rooms := PaintRooms(Filled(w, h, Wall), t2);
    var grid := Dig(rooms, t2, g2).0;
    assert grid == Generate(w, h, minLeaf, maxLeaf, seed, oracle).grid;
    forall p | AnyRoom(t2, p) ensures IsFloor(rooms, p) {
      RoomsOnWalls(w, h, t2, p);
    }
    DigConnects(rooms, t2, g2);
    var anchor := Anchor(t2);
    forall p | IsFloor(grid, p)
      ensures Connected(grid, p, anchor)
    {
      if IsFloor(rooms, p) {
        RoomsOnWalls(w, h, t2, p);
      }
    }
    ConnectedSymmetric(grid, b, anchor);
    ConnectedJoin(grid, a, anchor, b);
  }

  /** Every tile of the outer border stays Wall: rooms keep a margin inside
      their leaves, and corridors run between room tiles. */
  lemma BorderIsWall(w: int, h: int, minLeaf: int, maxLeaf: int, seed: Random.uint32, oracle: Random.Oracle,
                       p: Point)
    requires Generable(w, h, minLeaf, maxLeaf, oracle, seed)
    requires InGrid(Generate(w, h, minLeaf, maxLeaf, seed, oracle).grid, p)
    requires p.x == 0 || p.y == 0 || p.x == w - 1 || p.y == h - 1
    ensures Generate(w, h, minLeaf, maxLeaf, seed, oracle).grid[p.y][p.x] == Wall
  {
    var (_, t1, g1) := Split(Root(w, h), minLeaf, maxLeaf, Random.Seeded(oracle, seed));
    Partitioned(w, h, minLeaf, maxLeaf, Random.Seeded(oracle, seed));
    var (t2, g2) := Furnish(t1, g1);
    PhasesReady(w, h, minLeaf, maxLeaf, t1, t2);
    var walls := Filled(w, h, Wall);
    var rooms := PaintRooms(walls, t2);
    var grid := Dig(rooms, t2, g2).0;
    assert grid == Generate(w, h, minLeaf, maxLeaf, seed, oracle).grid;
    var inner := Shrink(Rect(0, 0, w, h));
    assert !Contains(inner, p);
    RoomsOnWalls(w, h, t2, p);
    PaintRoomsExact(walls, t2, p);
    DigInside(rooms, t2, g2, inner);
    assert !IsFloor(grid, p);
  }

  /** The corridors `Generate` digs, in the order DigCorridors carves them. */
  function CorridorsDug(w: int, h: int, minLeaf: int, maxLeaf: int, seed: Random.uint32, oracle: Random.Oracle): seq<Corridor>
    requires Generable(w, h, minLeaf, maxLeaf, oracle, seed)
  {
    var (_, t1, g1) := Split(Root(w, h), minLeaf, maxLeaf, Random.Seeded(oracle, seed));
    Partitioned(w, h, minLeaf, maxLeaf, Random.Seeded(oracle, seed));
    var (t2, g2) := Furnish(t1, g1);
    PhasesReady(w, h, minLeaf, maxLeaf, t1, t2);
    CorridorPlan(t2, g2).0
  }

  /** No stray Floor: a tile of a generated dungeon is Floor exactly when it
      lies in a room or on the walk of one of the corridors, and Wall
      otherwise; no tile is Empty. */
  lemma GeneratedTiles(w: int, h: int, minLeaf: int, maxLeaf: int, seed: Random.uint32, oracle: Random.Oracle,
                       p: Point)
    requires Generable(w, h, minLeaf, maxLeaf, oracle, seed)
    requires InGrid(Generate(w, h, minLeaf, maxLeaf, seed, oracle).grid, p)
    ensures var o := Generate(w, h, minLeaf, maxLeaf, seed, oracle);
      o.grid[p.y][p.x] ==
        if AnyRoom(o.tree, p) || OnCorridor(CorridorsDug(w, h, minLeaf, maxLeaf, seed, oracle), p) then Floor else Wall
  {
    var (_, t1, g1) := Split(Root(w, h), minLeaf, maxLeaf, Random.Seeded(oracle, seed));
    Partitioned(w, h, minLeaf, maxLeaf, Random.Seeded(oracle, seed));
    var (t2, g2) := Furnish(t1, g1);
    PhasesReady(w, h, minLeaf, maxLeaf, t1, t2);
    var walls := Filled(w, h, Wall);
    var rooms := PaintRooms(walls, t2);
    GenerateSteps(w, h, minLeaf, maxLeaf, seed, oracle, t1, g1, t2, g2);
    assert CorridorsDug(w, h, minLeaf, maxLeaf, seed, oracle) == CorridorPlan(t2, g2).0;
    PaintRoomsExact(walls, t2, p);
    DigExact(rooms, t2, g2, p);
  }

  /** The corridors of a generated dungeon each join two room tiles. */
  lemma CorridorsJoinRooms(w: int, h: int, minLeaf: int, maxLeaf: int, seed: Random.uint32, oracle: Random.Oracle,
                           k: nat)
    requires Generable(w, h, minLeaf, maxLeaf, oracle, seed)
    requires k < |CorridorsDug(w, h, minLeaf, maxLeaf, seed, oracle)|
    ensures var c := CorridorsDug(w, h, minLeaf, maxLeaf, seed, oracle)[k];
      var t := Generate(w, h, minLeaf, maxLeaf, seed, oracle).tree;
      AnyRoom(t, c.p1) && AnyRoom(t, c.p2)
  {
    var (_, t1, g1) := Split(Root(w, h), minLeaf, maxLeaf, Random.Seeded(oracle, seed));
    Partitioned(w, h, minLeaf, maxLeaf, Random.Seeded(oracle, seed));
    var (t2, g2) := Furnish(t1, g1);
    PhasesReady(w, h, minLeaf, maxLeaf, t1, t2);
    GenerateSteps(w, h, minLeaf, maxLeaf, seed, oracle, t1, g1, t2, g2);
    CorridorEnds(t2, g2, k);
  }

  /** Arguments that make every run generable, whatever the engine and the
      seed: minLeaf and both sides at least 5 (as in the demo call
      `Generate(60, 40, 10, 20, seed)`). */
  lemma SufficientArguments(w: int, h: int, minLeaf: int, maxLeaf: int, oracle: Random.Oracle, seed: Random.uint32)
    requires 5 <= minLeaf <= maxLeaf && w >= 5 && h >= 5
    ensures Generable(w, h, minLeaf, maxLeaf, oracle, seed)
  {
    var t := Split(Root(w, h), minLeaf, maxLeaf, Random.Seeded(oracle, seed)).1;
    Partitioned(w, h, minLeaf, maxLeaf, Random.Seeded(oracle, seed));
    LeafSizes(t, minLeaf, maxLeaf, 5);
  }

  /** When neither side exceeds 2 * minLeaf, the root is never cut and the
      dungeon is one leaf holding one room (e.g. Generate(6, 6, 4, 4, seed)). */
  lemma SmallRootIsOneLeaf(w: int, h: int, minLeaf: int, maxLeaf: int, seed: Random.uint32, oracle: Random.Oracle)
    requires Generable(w, h, minLeaf, maxLeaf, oracle, seed)
    requires w <= 2 * minLeaf && h <= 2 * minLeaf
    ensures Generate(w, h, minLeaf, maxLeaf, seed, oracle).tree.IsLeaf()
    ensures Generate(w, h, minLeaf, maxLeaf, seed, oracle).tree.room.Some?
    ensures RoomFits(Rect(0, 0, w, h), Generate(w, h, minLeaf, maxLeaf, seed, oracle).tree.room.value)
  {
    var (_, t1, g1) := Split(Root(w, h), minLeaf, maxLeaf, Random.Seeded(oracle, seed));
    SplitShape(Root(w, h), minLeaf, maxLeaf, Random.Seeded(oracle, seed));
    assert t1 == Root(w, h);
    var (t2, g2) := Furnish(t1, g1);
    assert Generate(w, h, minLeaf, maxLeaf, seed, oracle).tree == t2;
  }
}
