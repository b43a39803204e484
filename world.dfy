/** The grid (engine/World.ts): bounds, Manhattan distance, orthogonal neighbours and the
    render cache of cell types. */
module World {
  import opened Types

  predicate InBounds(p: Position, n: int) {
    0 <= p.x < n && 0 <= p.y < n
  }

  function Abs(v: int): nat {
    if v < 0 then -v else v
  }

  function Distance(a: Position, b: Position): nat {
    Abs(a.x - b.x) + Abs(a.y - b.y)
  }

  /** Manhattan distance is a metric on the grid. */
  lemma DistanceIsMetric(a: Position, b: Position, c: Position)
    ensures Distance(a, b) == Distance(b, a)
    ensures Distance(a, b) == 0 <==> a == b
    ensures Distance(a, c) <= Distance(a, b) + Distance(b, c)
  {
  }

  function Shift(p: Position, d: Position): Position {
    Position(p.x + d.x, p.y + d.y)
  }

  /** The orthogonal directions in the source's order: up, down, left, right. */
  const Dirs4: seq<Position> := [Position(0, -1), Position(0, 1), Position(-1, 0), Position(1, 0)]

  /** The eight directions searched by replication and fleet deployment, before shuffling. */
  const Dirs8: seq<Position> :=
    Dirs4 + [Position(-1, -1), Position(1, -1), Position(-1, 1), Position(1, 1)]

  /** The order in which `q` is listed among the orthogonal neighbours of `p`
      (0 up, 1 down, 2 left, 3 right; 4 when `q` is not one of them). */
  function DirRank(p: Position, q: Position): nat {
    if q == Shift(p, Dirs4[0]) then 0
    else if q == Shift(p, Dirs4[1]) then 1
    else if q == Shift(p, Dirs4[2]) then 2
    else if q == Shift(p, Dirs4[3]) then 3
    else 4
  }

  function KeepInBounds(p: Position, n: int): seq<Position> {
    if InBounds(p, n) then [p] else []
  }

  /** The four orthogonal cells of `p`, in order, without those off the grid. */
  function Neighbors(p: Position, n: int): seq<Position> {
    KeepInBounds(Shift(p, Dirs4[0]), n) + KeepInBounds(Shift(p, Dirs4[1]), n)
      + KeepInBounds(Shift(p, Dirs4[2]), n) + KeepInBounds(Shift(p, Dirs4[3]), n)
  }

  /** The neighbours are at most four, exactly the in-bounds cells at distance 1,
      listed in the order up, down, left, right. */
  lemma NeighborsSpec(p: Position, n: int)
    ensures |Neighbors(p, n)| <= 4
    ensures forall q :: q in Neighbors(p, n) <==> InBounds(q, n) && Distance(p, q) == 1
    ensures forall i, j :: 0 <= i < j < |Neighbors(p, n)| ==>
      DirRank(p, Neighbors(p, n)[i]) < DirRank(p, Neighbors(p, n)[j]) < 4
  {
    var r := Neighbors(p, n);
    forall q | InBounds(q, n) && Distance(p, q) == 1
      ensures q in r
    {
      assert q == Shift(p, Dirs4[0]) || q == Shift(p, Dirs4[1])
          || q == Shift(p, Dirs4[2]) || q == Shift(p, Dirs4[3]);
    }
  }

  /** `Math.sign` of an integer. */
  function Sign(v: int): int {
    if v > 0 then 1 else if v < 0 then -1 else 0
  }

  /** The eight cells around `pos`. */
  predicate Adjacent8(pos: Position, q: Position) {
    q != pos && -1 <= q.x - pos.x <= 1 && -1 <= q.y - pos.y <= 1
  }

  /** Each of the eight directions leads to a touching cell. */
  lemma DirectionIsAdjacent(pos: Position, d: Position)
    requires d in Dirs8
    ensures Adjacent8(pos, Shift(pos, d))
  {
  }

  /** The offset to a touching cell is one of the eight directions. */
  lemma DirectionOfAdjacent(pos: Position, q: Position)
    requires Adjacent8(pos, q)
    ensures Position(q.x - pos.x, q.y - pos.y) in Dirs8
  {
    var d := Position(q.x - pos.x, q.y - pos.y);
    assert d == Dirs8[0] || d == Dirs8[1] || d == Dirs8[2] || d == Dirs8[3]
        || d == Dirs8[4] || d == Dirs8[5] || d == Dirs8[6] || d == Dirs8[7];
  }

  function Min(a: int, b: int): int { if a <= b then a else b }

  function Max(a: int, b: int): int { if a >= b then a else b }

  /** `Math.max(0, Math.min(n - 1, v))`. */
  function Clamp(v: int, n: int): (c: int)
    ensures n >= 1 ==> 0 <= c < n
    ensures 0 <= v < n ==> c == v
    ensures n >= 1 && v < 0 ==> c == 0
    ensures n >= 1 && v >= n ==> c == n - 1
  {
    Max(0, Min(n - 1, v))
  }

  /** The render cache: a `gridSize` by `gridSize` array of cell types, indexed `[y, x]`. */
  class World {
    const gridSize: nat
    var grid: array2<CellType>

    ghost predicate Valid()
      reads this
    {
      grid.Length0 == gridSize && grid.Length1 == gridSize
    }

    ghost predicate AllEmpty()
      reads this, grid
    {
      forall y, x :: 0 <= y < grid.Length0 && 0 <= x < grid.Length1 ==> grid[y, x] == Empty
    }

    constructor (gridSize: nat)
      ensures this.gridSize == gridSize && Valid() && AllEmpty() && fresh(grid)
    {
      this.gridSize := gridSize;
      new;
      grid := CreateGrid();
    }

    /** A fresh grid with every cell empty, filled row by row. */
    method CreateGrid() returns (g: array2<CellType>)
      ensures fresh(g) && g.Length0 == gridSize && g.Length1 == gridSize
      ensures forall y, x :: 0 <= y < gridSize && 0 <= x < gridSize ==> g[y, x] == Empty
    {
      g := new CellType[gridSize, gridSize];
      var y := 0;
      while y < gridSize
        invariant 0 <= y <= gridSize
        invariant forall y', x' :: 0 <= y' < y && 0 <= x' < gridSize ==> g[y', x'] == Empty
      {
        var x := 0;
        while x < gridSize
          invariant 0 <= x <= gridSize
          invariant forall y', x' :: 0 <= y' < y && 0 <= x' < gridSize ==> g[y', x'] == Empty
          invariant forall x' :: 0 <= x' < x ==> g[y, x'] == Empty
        {
          g[y, x] := Empty;
          x := x + 1;
        }
        y := y + 1;
      }
    }

    method Reset()
      modifies this
      ensures Valid() && AllEmpty() && fresh(grid)
    {
      grid := CreateGrid();
    }

    /** Writes one in-bounds cell; an out-of-bounds position changes nothing. */
    method SetCell(pos: Position, t: CellType)
      requires Valid()
      modifies grid
      ensures InBounds(pos, gridSize) ==> GetCell(pos) == t
      ensures forall y, x :: 0 <= y < gridSize && 0 <= x < gridSize && Position(x, y) != pos ==>
        grid[y, x] == old(grid[y, x])
      ensures !InBounds(pos, gridSize) ==> unchanged(grid)
    {
      if InBounds(pos, gridSize) {
        grid[pos.y, pos.x] := t;
      }
    }

    function GetCell(pos: Position): (c: CellType)
      reads this, grid
      requires Valid()
      ensures !InBounds(pos, gridSize) ==> c == Wall
      ensures InBounds(pos, gridSize) ==> c == grid[pos.y, pos.x]
    {
      if !InBounds(pos, gridSize) then Wall else grid[pos.y, pos.x]
    }

    function IsWalkable(pos: Position): (b: bool)
      reads this, grid
      requires Valid()
      ensures b ==> InBounds(pos, gridSize)
      ensures b <==> GetCell(pos) != Wall
    {
      InBounds(pos, gridSize) && grid[pos.y, pos.x] != Wall
    }

    /** The grid as rows of cells, for snapshots. */
    function Cells(): (s: seq<seq<CellType>>)
      reads this, grid
      requires Valid()
      ensures |s| == gridSize
      ensures forall y :: 0 <= y < gridSize ==> |s[y]| == gridSize
      ensures forall y, x :: 0 <= y < gridSize && 0 <= x < gridSize ==> s[y][x] == grid[y, x]
    {
      seq(gridSize, y reads this, grid requires Valid() && 0 <= y < gridSize =>
        seq(gridSize, x reads this, grid requires 0 <= y < grid.Length0 && 0 <= x < grid.Length1 => grid[y, x]))
    }
  }
}
