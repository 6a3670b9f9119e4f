# BSP dungeon generator — a verified Dafny model

This project models the dungeon generator of `src/DungeonGenerator.h`. Given
a width, a height, the leaf side bounds `minLeaf`/`maxLeaf` and a seed, the
generator:

1. fills a `Height × Width` grid with walls and seeds its random engine;
2. cuts the whole map recursively into a binary space partition (BSP) tree of
   rectangles (`SplitLeaf`);
3. carves one rectangular room into every leaf (`CreateRooms`);
4. joins the two subtrees of every internal node with an L-shaped corridor
   between a random room tile on each side (`DigCorridors`,
   `ChoosePointInRoom`, `CarveHorizontal`, `CarveVertical`).

The map is read back with `GetTile`/`GetWidth`/`GetHeight` or rendered as
text with `ToString`.

The project has two layers:

- **Value-level specification.** Modules `Geometry`, `Random`, `Tiles`,
  `Paths`, `Partition`, `Rooms`, `Corridors` and `Dungeon` describe each
  phase as a function of its inputs and the random state. `Dungeon.Generate`
  composes the phases.
- **Imperative model.** Class `Generator.DungeonGenerator` mirrors the C++
  class. It holds a mutable `array2<Tile>` grid, the dimensions, the random
  engine and the root of the tree. Each method is proved to do exactly what
  its phase's function describes. The ghost function `Generator.View` gives
  the array as rows of tiles.

The properties of the whole generator are proved on the value level:

- every floor tile is reachable from every other one through 4-connected
  floor tiles;
- the border of the map is wall, and a tile is Floor exactly when it lies in
  a room or on one of the corridors, and Wall otherwise;
- the leaves of the tree partition the map;
- each room lies inside its leaf with a margin of at least one tile;
- the corridors are L-shaped 4-connected paths.

The random engine (`std::mt19937` seen through
`std::uniform_int_distribution`) is an arbitrary *oracle*. The k-th draw
from the range `[lo, hi]` is `lo + oracle(seed, k, lo, hi) % (hi - lo + 1)`.
Every property above therefore holds for every engine, and
`Random.UniformCovers` shows that the oracle can produce every value of a
range. The default-constructed engine's seed is 5489, the standard default
of `mt19937`.

**The orientation rule is modelled as written.** SplitLeaf compares
the integer quotient `leaf.w / leaf.h` with `1.25`. Because the quotient is
truncated, the override fires only when one side is at least twice the
other (`Partition.OrientationRule`), not at a real ratio of 1.25 as the
`1.25f` literal suggests.

**Callers must supply valid arguments.** `Dungeon.Generable` states the
arguments the model accepts:

- `1 <= minLeaf <= maxLeaf` and both sides are at least 1;
- every leaf of the partition is at least 5 by 5.

Calls outside it behave as follows in the C++ code.

- A negative width or height throws `std::length_error` from the vector
  constructor at line 53. `Width` and `Height` have already been stored at
  lines 51-52; the grid, the engine and the tree keep their old values. This
  is a defined error path, and the model excludes it rather than models it.
- A zero width or height is undefined behaviour: a division by zero at
  lines 143-145 when the other side is positive, or an empty range at
  lines 183-184 when both are zero.
- A leaf below 5 by 5 hands an empty range to `uniform_int_distribution`
  at lines 183-189, which is undefined behaviour.
- `minLeaf > maxLeaf` is undefined only some of the time. When no leaf is
  long enough to be cut, SplitLeaf returns at lines 149-150 before it builds
  the distribution at line 152, and the run is well defined:
  `Generate(6, 6, 4, 2, s)` is an example. The model refuses
  `minLeaf > maxLeaf` outright.

`Dungeon.SufficientArguments` shows that `minLeaf >= 5` and both sides `>= 5` are enough. That covers the call
`Generate(60, 40, 10, 20, 20)` in `src/Tutorial03_Texturing.cpp`.

## Model

| member | source | states |
|---|---|---|
| Generator.DungeonGenerator.constructor | src/DungeonGenerator.h:16 | a new generator has a 0×0 grid, no tree, and an engine in its default state (seed 5489) |
| Generator.DungeonGenerator.Reset | src/DungeonGenerator.h:51-55 | the dimensions become w and h; the grid becomes a fresh h×w grid with every tile Wall; the engine is reseeded; the tree is untouched |
| Generator.DungeonGenerator.Generate | src/DungeonGenerator.h:49-61 | minLeaf and maxLeaf default to 8 and 20; afterwards the dimensions are w×h, and the tree, grid and engine state are exactly those of `Dungeon.Generate` for the engine it started with |
| Generator.DungeonGenerator.GetTile | src/DungeonGenerator.h:63 | returns the tile in row y, column x of the grid |
| Generator.DungeonGenerator.GetWidth | src/DungeonGenerator.h:64 | returns the stored width |
| Generator.DungeonGenerator.GetHeight | src/DungeonGenerator.h:65 | returns the stored height |
| Generator.DungeonGenerator.ToString | src/DungeonGenerator.h:67-77 | the returned text is `Tiles.Render` of the grid: each row's characters followed by a newline |
| Generator.DungeonGenerator.SplitLeaf | src/DungeonGenerator.h:137-169 | the split flag, the new subtree and the engine state it leaves are exactly `Partition.Split` of the leaf and the old engine state |
| Generator.DungeonGenerator.CreateRooms | src/DungeonGenerator.h:173-199 | the new tree and engine state are `Rooms.Furnish`; every leaf room lies inside the grid; the grid becomes `Rooms.PaintRooms` of the old grid |
| Generator.DungeonGenerator.FillRoom | src/DungeonGenerator.h:196-198 | the room's tiles become Floor and every other tile keeps its value (`Tiles.FillRect`) |
| Generator.DungeonGenerator.DigCorridors | src/DungeonGenerator.h:203-224 | the new grid and engine state are exactly `Corridors.Dig` of the old ones |
| Generator.DungeonGenerator.ChoosePointInRoom | src/DungeonGenerator.h:239-253 | the chosen point and the engine state are `Corridors.PickPoint`: one coin per level of descent, then two draws inside the room |
| Generator.DungeonGenerator.CarveHorizontal | src/DungeonGenerator.h:256-261 | the grid becomes `Tiles.CarveRow`: row y from min(x1,x2) to max(x1,x2) inclusive set to Floor |
| Generator.DungeonGenerator.CarveVertical | src/DungeonGenerator.h:263-268 | the grid becomes `Tiles.CarveColumn`: column x from min(y1,y2) to max(y1,y2) inclusive set to Floor |
| Generator.DungeonGenerator.RandomBool | src/DungeonGenerator.h:270 | returns whether one draw from [0, 1] is 1, and advances the engine by that one draw |
| Generator.DungeonGenerator.Draw | src/DungeonGenerator.h:152-153 | one `uniform_int_distribution` draw: a value in [lo, hi], with the engine advanced by one draw |
| Generator.ViewIs | src/DungeonGenerator.h:128 | a grid of rows that agrees with the array at every cell is its view |
| Random.Uniform | src/DungeonGenerator.h:152-153 | a draw from [lo, hi] lies in [lo, hi] and advances the draw counter by exactly one |
| Random.UniformCovers | src/DungeonGenerator.h:183-189 | every value of [lo, hi] is the draw of some engine, so no room size or position is excluded |
| Random.Bool | src/DungeonGenerator.h:270 | the coin is true exactly when the [0, 1] draw is 1, and it uses that draw's engine state |
| Random.BoolCovers | src/DungeonGenerator.h:270 | both coin outcomes are possible |
| Random.Seeded | src/DungeonGenerator.h:55 | a freshly seeded engine has the given seed and has made no draws |
| Tiles.Bounds | src/DungeonGenerator.h:53 | a point lies in the grid's rectangle exactly when it indexes a cell of the grid |
| Tiles.Filled | src/DungeonGenerator.h:53 | an h×w grid whose every tile is the given tile |
| Tiles.CarveRow | src/DungeonGenerator.h:256-261 | same shape; a tile becomes Floor exactly when it is on row y between the two x's inclusive; every other tile is unchanged |
| Tiles.CarveColumn | src/DungeonGenerator.h:263-268 | same shape; a tile becomes Floor exactly when it is in column x between the two y's inclusive; every other tile is unchanged |
| Tiles.FillRect | src/DungeonGenerator.h:196-198 | same shape; exactly the tiles of the rectangle become Floor |
| Tiles.CarveRowSymmetric | src/DungeonGenerator.h:258 | swapping x1 and x2 carves the same tiles |
| Tiles.CarveColumnSymmetric | src/DungeonGenerator.h:265 | swapping y1 and y2 carves the same tiles |
| Tiles.CarveRowIdempotent | src/DungeonGenerator.h:256-261 | carving the same row span twice equals carving it once |
| Tiles.CarveColumnIdempotent | src/DungeonGenerator.h:263-268 | carving the same column span twice equals carving it once |
| Tiles.CarveRowOverFloor | src/DungeonGenerator.h:256-261 | carving a span that is already Floor changes nothing |
| Tiles.CarveColumnOverFloor | src/DungeonGenerator.h:263-268 | carving a span that is already Floor changes nothing |
| Tiles.RowFloor | src/DungeonGenerator.h:259-260 | every tile of the carved row span is Floor afterwards |
| Tiles.ColumnFloor | src/DungeonGenerator.h:266-267 | every tile of the carved column span is Floor afterwards |
| Tiles.CarveRowGrows | src/DungeonGenerator.h:256-261 | carving never removes Floor, and changes a tile only to Floor |
| Tiles.CarveColumnGrows | src/DungeonGenerator.h:263-268 | carving never removes Floor, and changes a tile only to Floor |
| Tiles.TileToChar | src/DungeonGenerator.h:116-124 | the character of a tile (Floor '.', Wall '#', Empty ' ') reads back as that tile, so the three characters are distinct, and none of them is the line break |
| Tiles.RowText | src/DungeonGenerator.h:72-73 | one character per tile, each the tile's character |
| Tiles.Render | src/DungeonGenerator.h:67-77 | every character of the text is a line break or the character of some tile; the text of a non-empty grid ends with a line break |
| Tiles.LineStartIs | src/DungeonGenerator.h:70-75 | line y of the text starts at offset y·(Width+1) |
| Tiles.LineStartMonotonic | src/DungeonGenerator.h:70-75 | later lines start after earlier ones end, newline included |
| Tiles.LineStartInjective | src/DungeonGenerator.h:70-75 | no two distinct lines start at the same offset |
| Tiles.RenderLength | src/DungeonGenerator.h:67-77 | the text has Height·(Width+1) characters |
| Tiles.RenderAt | src/DungeonGenerator.h:67-77 | character y·(Width+1)+x is the character of tile (x, y), and it is '\n' when x = Width |
| Tiles.RenderInjective | src/DungeonGenerator.h:67-77 | two grids of the same width with the same text are equal: the text determines the map |
| Paths.Leg | src/DungeonGenerator.h:256-268 | a straight run lists |dx|+|dy|+1 points from a to b, each adjacent to the next and inside their bounding box |
| Paths.LegCovers | src/DungeonGenerator.h:256-268 | every point of the box of a straight run is on the run |
| Paths.ConnectedJoin | src/DungeonGenerator.h:203-224 | connection through floor tiles is transitive |
| Paths.ConnectedSymmetric | src/DungeonGenerator.h:203-224 | connection through floor tiles is symmetric |
| Paths.ConnectedRefl | src/DungeonGenerator.h:203-224 | every floor tile is connected to itself |
| Paths.ConnectedWiden | src/DungeonGenerator.h:203-224 | adding floor tiles keeps every connection |
| Paths.LegConnected | src/DungeonGenerator.h:256-268 | a run whose tiles are all floor connects its two ends |
| Paths.ConnectedAlong | src/DungeonGenerator.h:203-224 | the start of a path is connected to each of the path's points |
| Paths.RectConnected | src/DungeonGenerator.h:196-198 | any two tiles of an all-floor rectangle are connected |
| Partition.Orientation | src/DungeonGenerator.h:142-146 | a node at least twice as wide as tall is cut across its width, and one at least twice as tall as wide across its height, whatever the coin says |
| Partition.OrientationRule | src/DungeonGenerator.h:142-146 | the forced orientation applies exactly when one side is at least twice the other; otherwise the coin decides |
| Partition.QuotientAtLeastTwo | src/DungeonGenerator.h:143-145 | the truncated quotient a/b is at least 1.25 exactly when a ≥ 2b |
| Partition.Halves | src/DungeonGenerator.h:155-164 | the two children are the parent cut along the chosen axis: same origin and other side, the first `cut` across, the second the rest |
| Partition.Split | src/DungeonGenerator.h:137-169 | the cut keeps the node's area |
| Partition.SplitShape | src/DungeonGenerator.h:137-169 | it cuts exactly when the node is a leaf whose cut side minus minLeaf exceeds minLeaf; otherwise the node is unchanged; a cut gives two children along the chosen orientation, with the cut position in [minLeaf, min(maxLeaf, side − minLeaf)] |
| Partition.SplitIsBsp | src/DungeonGenerator.h:137-169 | splitting a leaf yields a BSP tree whose every cut is valid and whose every node is either a leaf or has two children; splitting a roomless tree leaves it roomless |
| Partition.CutTiles | src/DungeonGenerator.h:155-164 | the two halves of a valid cut are disjoint, inside the parent and together cover exactly the parent's tiles |
| Partition.CutSides | src/DungeonGenerator.h:148-164 | both halves are at least minLeaf across the cut; their extents add up to the parent's; the other side is unchanged |
| Partition.BspIsFull | src/DungeonGenerator.h:166-167 | every internal node of a BSP tree has both children |
| Partition.LeafSizes | src/DungeonGenerator.h:148-164 | if k ≤ minLeaf and the root is at least k in both directions, every leaf is at least k by k |
| Partition.LeavesWithin | src/DungeonGenerator.h:155-164 | each leaf lies inside the root |
| Partition.LeavesCover | src/DungeonGenerator.h:155-164 | a tile lies in the root exactly when it lies in some leaf |
| Partition.CoveringLeaf | src/DungeonGenerator.h:155-167 | every tile of the root lies in some leaf |
| Partition.LeavesDisjoint | src/DungeonGenerator.h:155-164 | no tile lies in two different leaves |
| Rooms.Furnish | src/DungeonGenerator.h:173-194 | every leaf gets a room of at least 3×3 with a margin of at least one tile inside the leaf; areas and the rooms of internal nodes are kept |
| Rooms.FurnishLeaf | src/DungeonGenerator.h:182-193 | a leaf's room has the first draw as width, the second as height, and the leaf's corner plus the third and fourth draws as position |
| Rooms.PaintRooms | src/DungeonGenerator.h:196-198 | painting the rooms keeps the grid's shape |
| Rooms.PaintRoomsExact | src/DungeonGenerator.h:196-198 | exactly the tiles of the rooms become Floor; every other tile is unchanged |
| Rooms.FurnishKeepsShape | src/DungeonGenerator.h:173-180 | carving rooms keeps the tree a BSP tree with the same leaves |
| Rooms.FurnishedAfterFurnish | src/DungeonGenerator.h:173-194 | on a roomless tree, exactly the leaves end up holding a nonempty room |
| Rooms.RoomsInsideMargin | src/DungeonGenerator.h:188-193 | rooms of leaves inside a box lie inside that box shrunk by one tile on every side |
| Rooms.LeafRoomsInside | src/DungeonGenerator.h:188-193 | every leaf room lies inside the shrunk box and inside the box |
| Rooms.RoomsWiden | src/DungeonGenerator.h:188-193 | rooms inside a box are inside every enclosing box |
| Rooms.BspLeavesIn | src/DungeonGenerator.h:155-164 | the leaves of a BSP tree lie inside any box containing the root |
| Rooms.AnyRoomWithin | src/DungeonGenerator.h:196-198 | a tile of any room lies in a box that contains every room |
| Corridors.PickPoint | src/DungeonGenerator.h:239-253 | the chosen point lies in the room of some node of the subtree |
| Corridors.Dig | src/DungeonGenerator.h:203-224 | same grid shape; floor tiles stay floor, and any other tile either keeps its value or becomes Floor |
| Corridors.CarveL | src/DungeonGenerator.h:214-223 | carving an L-shaped corridor keeps the grid's shape |
| Corridors.CarveLGrows | src/DungeonGenerator.h:214-223 | an L-shaped corridor only adds floor |
| Corridors.FirstLegFloor | src/DungeonGenerator.h:214-223 | every tile of the first leg is Floor after the corridor is dug |
| Corridors.SecondLegFloor | src/DungeonGenerator.h:214-223 | every tile of the second leg is Floor after the corridor is dug |
| Corridors.LPathSteps | src/DungeonGenerator.h:214-223 | the two legs meet at the corner; the path runs from p1 to p2 in unit steps |
| Corridors.LCorridor | src/DungeonGenerator.h:214-223 | after carving, the path is a floor path from p1 to p2 and the corner lies on both legs |
| Corridors.CarvedSpans | src/DungeonGenerator.h:214-223 | a newly carved tile lies in the box of one of the two legs |
| Corridors.SpansOnPath | src/DungeonGenerator.h:214-223 | every tile in the box of either leg is on the L path |
| Corridors.CorridorOnPath | src/DungeonGenerator.h:214-223 | a tile newly carved by the corridor is on the L path |
| Corridors.CorridorInside | src/DungeonGenerator.h:214-223 | a corridor between two points of a box carves only inside that box |
| Corridors.AnchorInRoom | src/DungeonGenerator.h:239-253 | the anchor of a furnished subtree lies in one of its rooms |
| Corridors.FurnishedReady | src/DungeonGenerator.h:203-212 | a furnished tree can be dug: every subtree has a room to descend to |
| Corridors.FurnishedRoomParts | src/DungeonGenerator.h:208-212 | a room tile of an internal node belongs to a room of its left or of its right subtree |
| Corridors.Bridge | src/DungeonGenerator.h:211-223 | the corridor between p1 and p2 joins the connected parts of the left and right subtrees |
| Corridors.DigConnects | src/DungeonGenerator.h:203-224 | after digging, every room tile of the subtree is connected to the subtree's anchor, and so is every newly carved tile |
| Corridors.DigInside | src/DungeonGenerator.h:203-224 | if every room lies in a box, digging carves only inside that box |
| Corridors.CarveLExact | src/DungeonGenerator.h:214-223 | one corridor sets exactly the tiles of its L walk to Floor and leaves every other tile as it was |
| Corridors.CarveLIdempotent | src/DungeonGenerator.h:214-223 | digging the same corridor twice equals digging it once |
| Corridors.OnCorridorAppend | src/DungeonGenerator.h:208-223 | a tile is on a corridor of the left subtree, the right subtree or this node exactly when it is on one of the concatenated list |
| Corridors.CorridorPlan | src/DungeonGenerator.h:203-224 | in a full tree there is one corridor per internal node, one fewer than the leaves |
| Corridors.DigExact | src/DungeonGenerator.h:203-224 | DigCorridors draws the corridors of `CorridorPlan`, in that order, leaves the same engine state, sets exactly the tiles on their walks to Floor, and leaves every other tile as it was |
| Corridors.CorridorEnds | src/DungeonGenerator.h:211-212 | each corridor runs between two tiles that lie in rooms of the subtree |
| Dungeon.Root | src/DungeonGenerator.h:56 | the root is a leaf without a room covering the whole map from (0, 0) |
| Dungeon.Generable | src/DungeonGenerator.h:148-189 | the arguments under which every range drawn from is non-empty and no quotient divides by zero: 1 ≤ minLeaf ≤ maxLeaf, both sides at least 1, and every leaf at least 5 by 5 |
| Dungeon.Partitioned | src/DungeonGenerator.h:56-58 | the partition of the whole map is a roomless full BSP tree whose root is the whole map |
| Dungeon.PhasesReady | src/DungeonGenerator.h:58-60 | after CreateRooms, the rooms lie one tile inside the map and the tree can be dug |
| Dungeon.Generate | src/DungeonGenerator.h:49-61 | the generated grid is h rows of w tiles |
| Dungeon.GeneratedTree | src/DungeonGenerator.h:56-59 | the final tree covers the map as a BSP tree with the partition's leaves, and each leaf has a room one tile inside the map |
| Dungeon.GenerateSteps | src/DungeonGenerator.h:53-60 | Generate is walls, then the partition, then the rooms painted, then the corridors dug, in the source's order |
| Dungeon.RoomsOnWalls | src/DungeonGenerator.h:53-59 | after CreateRooms, a tile is Floor exactly when it lies in a room |
| Dungeon.SingleComponent | src/DungeonGenerator.h:49-61 | any two floor tiles of a generated map are connected through floor tiles |
| Dungeon.BorderIsWall | src/DungeonGenerator.h:49-61 | every tile on the outer border of a generated map is Wall |
| Dungeon.GeneratedTiles | src/DungeonGenerator.h:49-61 | a tile of a generated map is Floor exactly when it lies in a room or on the walk of one of the corridors dug, and Wall otherwise; no tile is Empty |
| Dungeon.CorridorsJoinRooms | src/DungeonGenerator.h:203-224 | every corridor of a generated map runs between two room tiles |
| Dungeon.SufficientArguments | src/Tutorial03_Texturing.cpp:605 | minLeaf ≥ 5 and both sides ≥ 5 satisfy the generator's precondition |
| Dungeon.SmallRootIsOneLeaf | src/DungeonGenerator.h:148-150 | a map no more than twice minLeaf in each direction is never cut, and its single room fits the map |
| Geometry.WithinContains | src/DungeonGenerator.h:155-164 | a tile of an inner rectangle is a tile of the outer one |

## Left out

- `DumpToConsole` and `SavePPM` (src/DungeonGenerator.h:80-109) are output to the console and to files. They are not modelled.
- `getGrid` (src/DungeonGenerator.h:133) is a private copy accessor that nothing calls. It is not modelled.
- The `Room` struct (src/DungeonGenerator.h:24-27) is unused by the code. It is not modelled.
- The default seed argument `std::random_device{}()` is a hardware source, so `Generate` has no default for the seed. It keeps the defaults `minLeaf = 8` and `maxLeaf = 20`.
- Random: `mt19937` and `uniform_int_distribution` are not reproduced bit for bit. They are an arbitrary oracle, so the model fixes which draws happen, in which order and from which ranges, but not the exact numbers they produce.
- Generator.DungeonGenerator.SplitLeaf, CreateRooms: the C++ methods mutate the tree through `unique_ptr` children in place. In the model they take the subtree as a value and return the updated one. Each node has exactly one owner, so no aliasing is lost.
- `hasRoom` is not a separate field. It is set exactly when `room` is, so the model keeps only `room` (`Node.HasRoom()` is `room.Some?`).
- 32-bit `int` overflow of coordinates and dimensions is not modelled. Integers are unbounded.
- Calls outside the precondition `Dungeon.Generable` are excluded rather than modelled. A negative width or height throws `std::length_error` at line 53, after `Width` and `Height` are stored at lines 51-52 and with the old grid, engine and tree left in place; the model does not model that exception. A zero width or height is undefined behaviour: a division by zero at lines 143-145, or an empty range at lines 183-184. A leaf below the 5×5 a room needs gives an empty range at lines 183-189. `minLeaf > maxLeaf` is undefined only once a cut is drawn at line 152; a run that never cuts is well defined, and the model does not cover it.
- Generator.DungeonGenerator.GetTile: the C++ accessor does not check its indices. The model requires them to be inside the grid.
- The rest of the repository is not part of this model: the rendering scene, the tiled map, the figures and the tutorial application, apart from the one call cited above.
