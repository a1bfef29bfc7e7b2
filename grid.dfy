/**
  The collision grid shared by every search: tile-type codes indexed as grid[y][x],
  with (0,0) at the top-left, x growing rightward and y growing downward.
  Also the pure helpers of the engine files: walkability, tile costs, cost seeding,
  Manhattan distance and the direction table of the older engine.
*/
module Grid {
  import opened Wrappers

  datatype Point = Point(x: int, y: int)

  type TileGrid = seq<seq<int>>

  /** Every row as long as the first one; the engine reads the width from row 0 only. */
  predicate Rectangular(g: TileGrid) {
    forall r :: 0 <= r < |g| ==> |g[r]| == |g[0]|
  }

  function Width(g: TileGrid): nat {
    if |g| == 0 then 0 else |g[0]|
  }

  function Height(g: TileGrid): nat {
    |g|
  }

  predicate Within(p: Point, w: int, h: int) {
    0 <= p.x < w && 0 <= p.y < h
  }

  predicate InBounds(g: TileGrid, p: Point) {
    Within(p, Width(g), Height(g))
  }

  function Tile(g: TileGrid, p: Point): int
    requires Rectangular(g) && InBounds(g, p)
  {
    g[p.y][p.x]
  }

  /** The tile under p is one of the walkable tile types. */
  predicate Walkable(g: TileGrid, tiles: seq<int>, p: Point)
    requires Rectangular(g) && InBounds(g, p)
  {
    Tile(g, p) in tiles
  }

  /** Linear scan of the walkable list, returning as soon as the tile type matches. */
  method IsTileWalkable(g: TileGrid, tiles: seq<int>, p: Point) returns (b: bool)
    requires Rectangular(g) && InBounds(g, p)
    ensures b <==> Walkable(g, tiles, p)
  {
    var i := 0;
    while i < |tiles|
      invariant 0 <= i <= |tiles|
      invariant forall k :: 0 <= k < i ==> tiles[k] != g[p.y][p.x]
    {
      if g[p.y][p.x] == tiles[i] {
        return true;
      }
      i := i + 1;
    }
    return false;
  }

  /** Every tile type occurring in the grid has an entry in the cost table. */
  predicate CoversGrid(costs: map<int, int>, g: TileGrid)
    requires Rectangular(g)
  {
    forall y, x :: 0 <= y < |g| && 0 <= x < Width(g) ==> g[y][x] in costs
  }

  predicate NonNegative(costs: map<int, int>) {
    forall t :: t in costs ==> costs[t] >= 0
  }

  /** The cost of entering the tile under p. */
  function TileCost(costs: map<int, int>, g: TileGrid, p: Point): (c: int)
    requires Rectangular(g) && InBounds(g, p) && CoversGrid(costs, g) && NonNegative(costs)
    ensures c >= 0 && c == costs[Tile(g, p)]
  {
    var t := g[p.y][p.x];
    assert t in costs && costs[t] >= 0;
    costs[t]
  }

  /** Tile types found in the cells that come before (row, col) in row-major order. */
  ghost function TilesBefore(g: TileGrid, row: int, col: int): set<int>
    requires Rectangular(g)
  {
    set y, x | 0 <= y < |g| && 0 <= x < Width(g) && (y < row || (y == row && x < col)) :: g[y][x]
  }

  /** Every tile type occurring in the grid. */
  ghost function TilesOf(g: TileGrid): set<int>
    requires Rectangular(g)
  {
    set y, x | 0 <= y < |g| && 0 <= x < Width(g) :: g[y][x]
  }

  /**
    The cost a tile type has once the grid's tile types are seeded: a seen type
    that had no entry, or an entry of 0, gets cost 1; every other entry is kept.
  */
  ghost function SeededCost(costs: map<int, int>, seen: set<int>, t: int): int
    requires t in costs || t in seen
  {
    if t in seen && (t !in costs || costs[t] == 0) then 1 else costs[t]
  }

  lemma TilesBeforeNext(g: TileGrid, row: int, col: int)
    requires Rectangular(g) && 0 <= row < |g| && 0 <= col < Width(g)
    ensures TilesBefore(g, row, col + 1) == TilesBefore(g, row, col) + {g[row][col]}
  {
    var a := TilesBefore(g, row, col + 1);
    var b := TilesBefore(g, row, col) + {g[row][col]};
    forall t | t in a ensures t in b {
      var y, x :| 0 <= y < |g| && 0 <= x < Width(g) && (y < row || (y == row && x < col + 1)) && g[y][x] == t;
      if y == row && x == col {
      } else {
        assert t in TilesBefore(g, row, col);
      }
    }
  }

  lemma TilesBeforeRow(g: TileGrid, row: int)
    requires Rectangular(g) && 0 <= row < |g|
    ensures TilesBefore(g, row, Width(g)) == TilesBefore(g, row + 1, 0)
  {
    var a := TilesBefore(g, row, Width(g));
    var b := TilesBefore(g, row + 1, 0);
    forall t | t in b ensures t in a {
      var y, x :| 0 <= y < |g| && 0 <= x < Width(g) && (y < row + 1 || (y == row + 1 && x < 0)) && g[y][x] == t;
      assert y < row || (y == row && x < Width(g));
    }
  }

  lemma TilesBeforeAll(g: TileGrid)
    requires Rectangular(g)
    ensures TilesBefore(g, |g|, 0) == TilesOf(g)
  {
  }

  /**
    The cost-table seeding loop of setGrid: visits every cell row by row and gives
    the cell's tile type cost 1 when its entry is missing or 0.
  */
  method SeedCosts(costs: map<int, int>, g: TileGrid) returns (r: map<int, int>)
    requires Rectangular(g)
    ensures r.Keys == costs.Keys + TilesOf(g)
    ensures forall t :: t in r ==> r[t] == SeededCost(costs, TilesOf(g), t)
  {
    r := costs;
    var y := 0;
    while y < |g|
      invariant 0 <= y <= |g|
      invariant r.Keys == costs.Keys + TilesBefore(g, y, 0)
      invariant forall t :: t in r ==> r[t] == SeededCost(costs, TilesBefore(g, y, 0), t)
    {
      var x := 0;
      while x < |g[0]|
        invariant 0 <= x <= |g[0]|
        invariant r.Keys == costs.Keys + TilesBefore(g, y, x)
        invariant forall t :: t in r ==> r[t] == SeededCost(costs, TilesBefore(g, y, x), t)
      {
        TilesBeforeNext(g, y, x);
        var t := g[y][x];
        if !(t in r && r[t] != 0) {
          r := r[t := 1];
        }
        x := x + 1;
      }
      TilesBeforeRow(g, y);
      y := y + 1;
    }
    TilesBeforeAll(g);
  }

  /** After seeding, every tile type in the grid has a positive cost when the old table had no negative entry. */
  lemma SeededCoversGrid(costs: map<int, int>, g: TileGrid, r: map<int, int>)
    requires Rectangular(g) && NonNegative(costs)
    requires r.Keys == costs.Keys + TilesOf(g)
    requires forall t :: t in r ==> r[t] == SeededCost(costs, TilesOf(g), t)
    ensures CoversGrid(r, g) && NonNegative(r)
    ensures forall t :: t in TilesOf(g) ==> r[t] >= 1
  {
    forall y, x | 0 <= y < |g| && 0 <= x < Width(g) ensures g[y][x] in r {
      assert g[y][x] in TilesOf(g);
    }
  }

  // ----- geometry -----

  function Abs(n: int): nat {
    if n < 0 then -n else n
  }

  /** Manhattan distance (getDistance of the older engine). */
  function Distance(p: Point, q: Point): nat {
    Abs(p.x - q.x) + Abs(p.y - q.y)
  }

  lemma DistanceMetric(p: Point, q: Point, r: Point)
    ensures Distance(p, q) == Distance(q, p)
    ensures Distance(p, q) == 0 <==> p == q
    ensures Distance(p, r) <= Distance(p, q) + Distance(q, r)
  {
  }

  /** Orthogonal neighbours: one step up, right, down or left. */
  predicate Adjacent(p: Point, q: Point) {
    (p.x == q.x && Abs(p.y - q.y) == 1) || (p.y == q.y && Abs(p.x - q.x) == 1)
  }

  lemma AdjacentIsUnitDistance(p: Point, q: Point)
    ensures Adjacent(p, q) <==> Distance(p, q) == 1
  {
  }

  /** The four orthogonal neighbours of p are exactly the cells above, right of, below and left of it. */
  lemma AdjacentCases(p: Point, q: Point)
    ensures Adjacent(p, q) <==>
      q == Point(p.x, p.y - 1) || q == Point(p.x + 1, p.y) || q == Point(p.x, p.y + 1) || q == Point(p.x - 1, p.y)
  {
  }

  /** Consecutive cells are orthogonal neighbours. */
  predicate Chained(path: seq<Point>) {
    forall k :: 0 <= k < |path| - 1 ==> Adjacent(path[k], path[k + 1])
  }

  /**
    A chain of orthogonal steps has at least as many steps as the Manhattan distance
    between its ends: no returned path is shorter than getDistance.
  */
  lemma {:induction false} ChainAtLeastDistance(path: seq<Point>)
    requires |path| >= 1 && Chained(path)
    ensures |path| - 1 >= Distance(path[0], path[|path| - 1])
  {
    if |path| > 1 {
      var front := path[..|path| - 1];
      assert Chained(front) by {
        forall k | 0 <= k < |front| - 1 ensures Adjacent(front[k], front[k + 1]) {
          assert front[k] == path[k] && front[k + 1] == path[k + 1];
        }
      }
      ChainAtLeastDistance(front);
      var a, b, c := path[0], path[|path| - 2], path[|path| - 1];
      assert Adjacent(b, c);
      DistanceMetric(a, b, c);
    }
  }

  // ----- directions (older engine) -----

  datatype Direction = Top | TopRight | Right | BottomRight | Bottom | BottomLeft | Left | TopLeft

  /**
    calculateDirection: names the offset from a cell to one of its eight surrounding
    cells; every other offset, (0,0) included, is the source's thrown error (None).
  */
  function CalculateDirection(dx: int, dy: int): (r: Option<Direction>)
    ensures r.Some? <==> -1 <= dx <= 1 && -1 <= dy <= 1 && !(dx == 0 && dy == 0)
  {
    if dx == 0 && dy == -1 then Some(Top)
    else if dx == 1 && dy == -1 then Some(TopRight)
    else if dx == 1 && dy == 0 then Some(Right)
    else if dx == 1 && dy == 1 then Some(BottomRight)
    else if dx == 0 && dy == 1 then Some(Bottom)
    else if dx == -1 && dy == 1 then Some(BottomLeft)
    else if dx == -1 && dy == 0 then Some(Left)
    else if dx == -1 && dy == -1 then Some(TopLeft)
    else None
  }

  /** The offset a direction names, as drawn in the table above calculateDirection. */
  function Offset(d: Direction): (int, int) {
    match d
    case Top => (0, -1)
    case TopRight => (1, -1)
    case Right => (1, 0)
    case BottomRight => (1, 1)
    case Bottom => (0, 1)
    case BottomLeft => (-1, 1)
    case Left => (-1, 0)
    case TopLeft => (-1, -1)
  }

  lemma DirectionRoundTrip(d: Direction)
    ensures CalculateDirection(Offset(d).0, Offset(d).1) == Some(d)
  {
  }

  lemma DirectionInverse(dx: int, dy: int)
    requires CalculateDirection(dx, dy).Some?
    ensures Offset(CalculateDirection(dx, dy).value) == (dx, dy)
  {
  }

  /** Distinct offsets get distinct directions. */
  lemma DirectionInjective(dx1: int, dy1: int, dx2: int, dy2: int)
    requires CalculateDirection(dx1, dy1).Some? && CalculateDirection(dx1, dy1) == CalculateDirection(dx2, dy2)
    ensures dx1 == dx2 && dy1 == dy2
  {
    DirectionInverse(dx1, dy1);
    DirectionInverse(dx2, dy2);
  }
}
