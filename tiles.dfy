// The tile grid as a value: rows of tiles indexed g[y][x], and the three
// writes the generator performs on it (a horizontal run, a vertical run,
// a filled room rectangle), plus the text encoding of a tile.

module Tiles {
  import opened Geometry
  import opened Wrappers

  datatype Tile = Empty | Floor | Wall

  type Grid = seq<seq<Tile>>

  /** Number of columns (the row length of a rectangular grid). */
  function Width(g: Grid): nat {
    if |g| == 0 then 0 else |g[0]|
  }

  /** Every row has the same length. */
  predicate Rectangular(g: Grid) {
    forall y :: 0 <= y < |g| ==> |g[y]| == Width(g)
  }

  /** Same dimensions as another grid. */
  predicate SameShape(g: Grid, g': Grid) {
    Rectangular(g) && Rectangular(g') && |g'| == |g| && Width(g') == Width(g)
  }

  predicate InGrid(g: Grid, p: Point) {
    0 <= p.y < |g| && 0 <= p.x < Width(g)
  }

  /** The rectangle of all tiles of the grid. */
  function Bounds(g: Grid): (r: Rect)
    ensures forall p :: Contains(r, p) <==> InGrid(g, p)
  {
    Rect(0, 0, Width(g), |g|)
  }

  predicate IsFloor(g: Grid, p: Point)
    requires Rectangular(g)
  {
    InGrid(g, p) && g[p.y][p.x] == Floor
  }

  /** Every Floor tile of `g` is a Floor tile of `g'`, and every other tile
      either keeps its value or becomes Floor. */
  ghost predicate FloorGrows(g: Grid, g': Grid)
    requires Rectangular(g) && Rectangular(g')
  {
    && (forall p :: IsFloor(g, p) ==> IsFloor(g', p))
    && (forall p :: InGrid(g, p) && InGrid(g', p) ==> g'[p.y][p.x] == g[p.y][p.x] || g'[p.y][p.x] == Floor)
  }

  /** `_grid.assign(h, std::vector<Tile>(w, t))`. */
  function Filled(w: nat, h: nat, t: Tile): (g: Grid)
    ensures Rectangular(g) && |g| == h && Width(g) == (if h == 0 then 0 else w)
    ensures forall y, x :: 0 <= y < h && 0 <= x < w ==> g[y][x] == t
  {
    seq(h, _ => seq(w, _ => t))
  }

  /** The Floor run `CarveHorizontal(x1, x2, y)` writes. */
  function CarveRow(g: Grid, x1: int, x2: int, y: int): (r: Grid)
    requires Rectangular(g)
    requires InGrid(g, Point(x1, y)) && InGrid(g, Point(x2, y))
    ensures SameShape(g, r)
    ensures forall yy, xx :: 0 <= yy < |g| && 0 <= xx < Width(g) ==>
      r[yy][xx] == (if yy == y && Min(x1, x2) <= xx <= Max(x1, x2) then Floor else g[yy][xx])
  {
    g[y := seq(Width(g), xx requires 0 <= xx < Width(g) =>
                 if Min(x1, x2) <= xx <= Max(x1, x2) then Floor else g[y][xx])]
  }

  /** The Floor run `CarveVertical(y1, y2, x)` writes. */
  function CarveColumn(g: Grid, y1: int, y2: int, x: int): (r: Grid)
    requires Rectangular(g)
    requires InGrid(g, Point(x, y1)) && InGrid(g, Point(x, y2))
    ensures SameShape(g, r)
    ensures forall yy, xx :: 0 <= yy < |g| && 0 <= xx < Width(g) ==>
      r[yy][xx] == (if xx == x && Min(y1, y2) <= yy <= Max(y1, y2) then Floor else g[yy][xx])
  {
    seq(|g|, yy requires 0 <= yy < |g| =>
          if Min(y1, y2) <= yy <= Max(y1, y2) then g[yy][x := Floor] else g[yy])
  }

  /** The tiles of a room rectangle set to Floor. */
  function FillRect(g: Grid, room: Rect): (r: Grid)
    requires Rectangular(g)
    requires Within(room, Bounds(g))
    ensures SameShape(g, r)
    ensures forall yy, xx :: 0 <= yy < |g| && 0 <= xx < Width(g) ==>
      r[yy][xx] == (if Contains(room, Point(xx, yy)) then Floor else g[yy][xx])
  {
    seq(|g|, yy requires 0 <= yy < |g| =>
          seq(Width(g), xx requires 0 <= xx < Width(g) =>
                if Contains(room, Point(xx, yy)) then Floor else g[yy][xx]))
  }

  /** Two grids of one shape that agree tile by tile are equal. */
  lemma Extensionality(a: Grid, b: Grid)
    requires SameShape(a, b)
    requires forall y, x :: 0 <= y < |a| && 0 <= x < Width(a) ==> a[y][x] == b[y][x]
    ensures a == b
  {
    forall y | 0 <= y < |a|
      ensures a[y] == b[y]
    {
      assert |a[y]| == |b[y]| == Width(a);
    }
  }

  /** Carving a horizontal run twice is carving it once. */
  lemma CarveRowIdempotent(g: Grid, x1: int, x2: int, y: int)
    requires Rectangular(g)
    requires InGrid(g, Point(x1, y)) && InGrid(g, Point(x2, y))
    ensures CarveRow(CarveRow(g, x1, x2, y), x1, x2, y) == CarveRow(g, x1, x2, y)
  {
    var once := CarveRow(g, x1, x2, y);
    Extensionality(CarveRow(once, x1, x2, y), once);
  }

  /** Carving a vertical run twice is carving it once. */
  lemma CarveColumnIdempotent(g: Grid, y1: int, y2: int, x: int)
    requires Rectangular(g)
    requires InGrid(g, Point(x, y1)) && InGrid(g, Point(x, y2))
    ensures CarveColumn(CarveColumn(g, y1, y2, x), y1, y2, x) == CarveColumn(g, y1, y2, x)
  {
    var once := CarveColumn(g, y1, y2, x);
    Extensionality(CarveColumn(once, y1, y2, x), once);
  }

  /** The order of the two endpoints does not matter. */
  lemma CarveRowSymmetric(g: Grid, x1: int, x2: int, y: int)
    requires Rectangular(g)
    requires InGrid(g, Point(x1, y)) && InGrid(g, Point(x2, y))
    ensures CarveRow(g, x1, x2, y) == CarveRow(g, x2, x1, y)
  {
    Extensionality(CarveRow(g, x1, x2, y), CarveRow(g, x2, x1, y));
  }

  lemma CarveColumnSymmetric(g: Grid, y1: int, y2: int, x: int)
    requires Rectangular(g)
    requires InGrid(g, Point(x, y1)) && InGrid(g, Point(x, y2))
    ensures CarveColumn(g, y1, y2, x) == CarveColumn(g, y2, y1, x)
  {
    Extensionality(CarveColumn(g, y1, y2, x), CarveColumn(g, y2, y1, x));
  }

  /** Carving over tiles that are already Floor changes nothing. */
  lemma CarveRowOverFloor(g: Grid, x1: int, x2: int, y: int)
    requires Rectangular(g)
    requires InGrid(g, Point(x1, y)) && InGrid(g, Point(x2, y))
    requires forall x :: Min(x1, x2) <= x <= Max(x1, x2) ==> g[y][x] == Floor
    ensures CarveRow(g, x1, x2, y) == g
  {
    Extensionality(CarveRow(g, x1, x2, y), g);
  }

  lemma CarveColumnOverFloor(g: Grid, y1: int, y2: int, x: int)
    requires Rectangular(g)
    requires InGrid(g, Point(x, y1)) && InGrid(g, Point(x, y2))
    requires forall y :: Min(y1, y2) <= y <= Max(y1, y2) ==> g[y][x] == Floor
    ensures CarveColumn(g, y1, y2, x) == g
  {
    Extensionality(CarveColumn(g, y1, y2, x), g);
  }

  /** A tile of the run is Floor after CarveHorizontal. */
  lemma RowFloor(g: Grid, x1: int, x2: int, y: int, t: Point)
    requires Rectangular(g)
    requires InGrid(g, Point(x1, y)) && InGrid(g, Point(x2, y))
    requires t.y == y && Min(x1, x2) <= t.x <= Max(x1, x2)
    ensures IsFloor(CarveRow(g, x1, x2, y), t)
  {
  }

  /** A tile of the run is Floor after CarveVertical. */
  lemma ColumnFloor(g: Grid, y1: int, y2: int, x: int, t: Point)
    requires Rectangular(g)
    requires InGrid(g, Point(x, y1)) && InGrid(g, Point(x, y2))
    requires t.x == x && Min(y1, y2) <= t.y <= Max(y1, y2)
    ensures IsFloor(CarveColumn(g, y1, y2, x), t)
  {
  }

  /** Carving only ever adds Floor. */
  lemma CarveRowGrows(g: Grid, x1: int, x2: int, y: int)
    requires Rectangular(g)
    requires InGrid(g, Point(x1, y)) && InGrid(g, Point(x2, y))
    ensures FloorGrows(g, CarveRow(g, x1, x2, y))
  {}

  lemma CarveColumnGrows(g: Grid, y1: int, y2: int, x: int)
    requires Rectangular(g)
    requires InGrid(g, Point(x, y1)) && InGrid(g, Point(x, y2))
    ensures FloorGrows(g, CarveColumn(g, y1, y2, x))
  {}

  /** `TileToChar`: the character of a tile in the text dump.  The
      encoding loses nothing: each tile can be read back from its
      character, and no tile is written as the line break. */
  function TileToChar(t: Tile): (c: char)
    ensures CharToTile(c) == Some(t)
    ensures c != '\n'
  {
    match t
    case Floor => '.'
    case Wall => '#'
    case _ => ' '
  }

  /** Reading a character of the text dump back. */
  function CharToTile(c: char): Option<Tile> {
    if c == '.' then Some(Floor)
    else if c == '#' then Some(Wall)
    else if c == ' ' then Some(Empty)
    else None
  }

  /** The characters of one row. */
  function RowText(row: seq<Tile>): (s: string)
    ensures |s| == |row| && forall i :: 0 <= i < |row| ==> s[i] == TileToChar(row[i])
  {
    seq(|row|, i requires 0 <= i < |row| => TileToChar(row[i]))
  }

  /** `ToString`: each row top to bottom, its tiles left to right, then a
      newline. */
  function Render(g: Grid): (s: string)
    ensures forall i :: 0 <= i < |s| ==> s[i] == '\n' || CharToTile(s[i]).Some?
    ensures |g| > 0 ==> |s| > 0 && s[|s| - 1] == '\n'
    decreases |g|
  {
    if |g| == 0 then [] else Render(g[..|g| - 1]) + RowText(g[|g| - 1]) + ['\n']
  }

  /** Where line y of the text of a w-wide grid starts: y * (w + 1). */
  function LineStart(y: nat, w: nat): nat {
    if y == 0 then 0 else LineStart(y - 1, w) + w + 1
  }

  lemma {:induction false} LineStartIs(y: nat, w: nat)
    ensures LineStart(y, w) == y * (w + 1)
  {
    if y > 0 {
      LineStartIs(y - 1, w);
    }
  }

  lemma {:induction false} LineStartMonotonic(y: nat, m: nat, w: nat)
    requires y < m
    ensures LineStart(y, w) + w + 1 <= LineStart(m, w)
    decreases m
  {
    if y < m - 1 {
      LineStartMonotonic(y, m - 1, w);
    }
  }

  lemma LineStartInjective(m: nat, n: nat, w: nat)
    requires LineStart(m, w) == LineStart(n, w)
    ensures m == n
  {
    if m < n {
      LineStartMonotonic(m, n, w);
    } else if n < m {
      LineStartMonotonic(n, m, w);
    }
  }

  /** The text of an h by w grid has h lines of w + 1 characters. */
  lemma {:induction false} RenderLength(g: Grid, w: nat)
    requires forall y :: 0 <= y < |g| ==> |g[y]| == w
    ensures |Render(g)| == LineStart(|g|, w)
    decreases |g|
  {
    if |g| > 0 {
      RenderLength(g[..|g| - 1], w);
    }
  }

  /** Line y of the text of a w-wide grid holds the characters of row y,
      left to right, and then a newline. */
  lemma {:induction false} RenderAt(g: Grid, w: nat, y: nat, x: nat)
    requires forall y :: 0 <= y < |g| ==> |g[y]| == w
    requires y < |g| && x <= w
    ensures LineStart(y, w) + x < |Render(g)|
    ensures Render(g)[LineStart(y, w) + x] == if x == w then '\n' else TileToChar(g[y][x])
    decreases |g|
  {
    var n := |g|;
    var init := g[..n - 1];
    var head := Render(init);
    var last := RowText(g[n - 1]) + ['\n'];
    assert Render(g) == head + last;
    RenderLength(init, w);
    if y < n - 1 {
      RenderAt(init, w, y, x);
      assert init[y] == g[y];
    } else {
      assert Render(g)[LineStart(y, w) + x] == last[x];
      if x < w {
        assert last[x] == RowText(g[y])[x];
      }
    }
  }

  /** The text determines the grid: two grids of the same width with the
      same text are equal. */
  lemma RenderInjective(a: Grid, b: Grid, w: nat)
    requires forall y :: 0 <= y < |a| ==> |a[y]| == w
    requires forall y :: 0 <= y < |b| ==> |b[y]| == w
    requires Render(a) == Render(b)
    ensures a == b
  {
    RenderLength(a, w);
    RenderLength(b, w);
    LineStartInjective(|a|, |b|, w);
    forall y | 0 <= y < |a|
      ensures a[y] == b[y]
    {
      forall x | 0 <= x < w
        ensures a[y][x] == b[y][x]
      {
        RenderAt(a, w, y, x);
        RenderAt(b, w, y, x);
        assert CharToTile(TileToChar(a[y][x])) == Some(a[y][x]);
        assert CharToTile(TileToChar(b[y][x])) == Some(b[y][x]);
      }
    }
  }
}
