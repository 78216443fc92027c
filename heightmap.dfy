/** The heightmap: a rectangular grid of heights and the orthogonal
    neighbours of a cell (`get_neighbors`). */
module Heightmap {

  /** A cell as (row, column). */
  type Coord = (int, int)

  /** A heightmap as its rows, top to bottom; each row left to right. */
  type Grid = seq<seq<int>>

  /** Number of columns: the length of the first row (0 for no rows). */
  function Width(g: Grid): nat {
    if |g| == 0 then 0 else |g[0]|
  }

  /** Every row has the same length. */
  predicate Rectangular(g: Grid) {
    forall i | 0 <= i < |g| :: |g[i]| == Width(g)
  }

  /** Every height is a single digit, 0 to 9. */
  predicate Digits(g: Grid) {
    forall i, j | 0 <= i < |g| && 0 <= j < |g[i]| :: 0 <= g[i][j] <= 9
  }

  /** The grid is what parsing a puzzle input yields. */
  predicate WellFormed(g: Grid) {
    Rectangular(g) && Digits(g)
  }

  predicate InBounds(g: Grid, p: Coord) {
    0 <= p.0 < |g| && 0 <= p.1 < Width(g)
  }

  /** `heightmap[(row, col)]` */
  function At(g: Grid, p: Coord): (h: int)
    requires Rectangular(g) && InBounds(g, p)
    ensures Digits(g) ==> 0 <= h <= 9
  {
    g[p.0][p.1]
  }

  /** q is one step right, down, left or up from p: the two differ by
      exactly 1 in exactly one component. */
  predicate Adjacent(p: Coord, q: Coord) {
    || (p.0 == q.0 && (q.1 == p.1 + 1 || q.1 == p.1 - 1))
    || (p.1 == q.1 && (q.0 == p.0 + 1 || q.0 == p.0 - 1))
  }

  /** The offsets `get_neighbors` tries, in order: right, down, left, up. */
  const Directions: seq<Coord> := [(0, 1), (1, 0), (0, -1), (-1, 0)]

  /** The in-bounds cells among (row, col) + d for d in dirs, in the order of dirs. */
  function NeighborsAlong(row: int, col: int, height: int, width: int, dirs: seq<Coord>): seq<Coord>
  {
    if dirs == [] then []
    else KeepInside(row + dirs[0].0, col + dirs[0].1, height, width)
         + NeighborsAlong(row, col, height, width, dirs[1..])
  }

  /** The cell (nr, nc) as a one-element list when it is inside the box, else nothing. */
  function KeepInside(nr: int, nc: int, height: int, width: int): seq<Coord> {
    if 0 <= nr < height && 0 <= nc < width then [(nr, nc)] else []
  }

  /** The offset that leads from p to q. */
  function Offset(p: Coord, q: Coord): Coord {
    (q.0 - p.0, q.1 - p.1)
  }

  /** Walking a list of offsets yields at most one cell per offset. */
  lemma {:induction false} NeighborsAlongLength(row: int, col: int, height: int, width: int, dirs: seq<Coord>)
    ensures |NeighborsAlong(row, col, height, width, dirs)| <= |dirs|
  {
    if dirs != [] {
      NeighborsAlongLength(row, col, height, width, dirs[1..]);
    }
  }

  /** Walking a list of offsets yields exactly the in-bounds cells whose offset is listed. */
  lemma {:induction false} NeighborsAlongMembers(row: int, col: int, height: int, width: int, dirs: seq<Coord>)
    ensures forall q :: q in NeighborsAlong(row, col, height, width, dirs)
                    <==> 0 <= q.0 < height && 0 <= q.1 < width && Offset((row, col), q) in dirs
  {
    if dirs != [] {
      var rest := dirs[1..];
      NeighborsAlongMembers(row, col, height, width, rest);
      var head := KeepInside(row + dirs[0].0, col + dirs[0].1, height, width);
      var r := head + NeighborsAlong(row, col, height, width, rest);
      assert NeighborsAlong(row, col, height, width, dirs) == r;
      forall q ensures q in r <==> 0 <= q.0 < height && 0 <= q.1 < width && Offset((row, col), q) in dirs {
        assert Offset((row, col), q) in dirs <==> Offset((row, col), q) == dirs[0] || Offset((row, col), q) in rest;
      }
    }
  }

  /** The four offsets are exactly the steps to an adjacent cell. */
  lemma DirectionsAreAdjacent(row: int, col: int)
    ensures forall q :: Offset((row, col), q) in Directions <==> Adjacent((row, col), q)
  {
    var ds := Directions;
    assert ds[0] == (0, 1) && ds[1] == (1, 0) && ds[2] == (0, -1) && ds[3] == (-1, 0);
    forall q ensures Offset((row, col), q) in ds <==> Adjacent((row, col), q) {
      var d := Offset((row, col), q);
      assert d in ds <==> d == ds[0] || d == ds[1] || d == ds[2] || d == ds[3];
    }
  }

  /** Walking Directions from position k: the cell at offset k, then the rest. */
  lemma NeighborsAlongFrom(row: int, col: int, height: int, width: int, k: nat)
    requires k < 4
    ensures NeighborsAlong(row, col, height, width, Directions[k..])
         == KeepInside(row + Directions[k].0, col + Directions[k].1, height, width)
          + NeighborsAlong(row, col, height, width, Directions[k + 1..])
  {
    assert Directions[k..][1..] == Directions[k + 1..];
  }

  /** Where the step from p to q stands in the order of Directions: right 0,
      down 1, left 2, up 3, and 4 when q is not adjacent to p. */
  function DirectionIndex(p: Coord, q: Coord): nat {
    var d := Offset(p, q);
    if d == (0, 1) then 0 else if d == (1, 0) then 1 else if d == (0, -1) then 2 else if d == (-1, 0) then 3 else 4
  }

  /** Every cell of r is adjacent to p, and the cells come in the order right,
      down, left, up. */
  predicate InDirectionOrder(p: Coord, r: seq<Coord>) {
    && (forall i | 0 <= i < |r| :: DirectionIndex(p, r[i]) < 4)
    && (forall i, j | 0 <= i < j < |r| :: DirectionIndex(p, r[i]) < DirectionIndex(p, r[j]))
  }

  /** At most one cell in direction k goes in front of cells in later directions. */
  lemma OrderCons(p: Coord, head: seq<Coord>, r: seq<Coord>, k: nat)
    requires k < 4 && |head| <= 1 && (forall i | 0 <= i < |head| :: DirectionIndex(p, head[i]) == k)
    requires InDirectionOrder(p, r) && forall i | 0 <= i < |r| :: k < DirectionIndex(p, r[i])
    ensures InDirectionOrder(p, head + r)
    ensures forall i | 0 <= i < |head + r| :: k <= DirectionIndex(p, (head + r)[i])
  {
    var r' := head + r;
    forall i | 0 <= i < |r'| ensures k <= DirectionIndex(p, r'[i]) < 4 {
      if i >= |head| {
        assert r'[i] == r[i - |head|];
      }
    }
    forall i, j | 0 <= i < j < |r'| ensures DirectionIndex(p, r'[i]) < DirectionIndex(p, r'[j]) {
      assert r'[j] == r[j - |head|];
      if i >= |head| {
        assert r'[i] == r[i - |head|];
      }
    }
  }

  /** The offset at position k of Directions has direction index k. */
  lemma DirectionIndexAt(p: Coord, k: nat)
    requires k < 4
    ensures DirectionIndex(p, (p.0 + Directions[k].0, p.1 + Directions[k].1)) == k
  {
    assert Directions[0] == (0, 1) && Directions[1] == (1, 0) && Directions[2] == (0, -1) && Directions[3] == (-1, 0);
  }

  /** The cell at offset k, if inside the box, has direction index k. */
  lemma KeepInsideIndex(row: int, col: int, height: int, width: int, k: nat)
    requires k < 4
    ensures var head := KeepInside(row + Directions[k].0, col + Directions[k].1, height, width);
      |head| <= 1 && forall i | 0 <= i < |head| :: DirectionIndex((row, col), head[i]) == k
  {
    DirectionIndexAt((row, col), k);
  }

  /** Walking Directions from position k yields cells in direction order, none
      of them before direction k. */
  lemma {:induction false} DirectionsInOrderFrom(row: int, col: int, height: int, width: int, k: nat)
    requires k <= 4
    ensures var r := NeighborsAlong(row, col, height, width, Directions[k..]);
      && InDirectionOrder((row, col), r)
      && forall i | 0 <= i < |r| :: k <= DirectionIndex((row, col), r[i])
    decreases 4 - k
  {
    if k == 4 {
      assert Directions[k..] == [];
    } else {
      DirectionsInOrderFrom(row, col, height, width, k + 1);
      NeighborsAlongFrom(row, col, height, width, k);
      KeepInsideIndex(row, col, height, width, k);
      var head := KeepInside(row + Directions[k].0, col + Directions[k].1, height, width);
      var rest := NeighborsAlong(row, col, height, width, Directions[k + 1..]);
      OrderCons((row, col), head, rest, k);
    }
  }

  /** `get_neighbors(row, col, height, width)`: exactly the in-bounds cells
      orthogonally adjacent to (row, col), at most four. */
  function Neighbors(row: int, col: int, height: int, width: int): (r: seq<Coord>)
    ensures forall q :: q in r <==> 0 <= q.0 < height && 0 <= q.1 < width && Adjacent((row, col), q)
    ensures |r| <= 4
  {
    NeighborsAlongLength(row, col, height, width, Directions);
    NeighborsAlongMembers(row, col, height, width, Directions);
    DirectionsAreAdjacent(row, col);
    NeighborsAlong(row, col, height, width, Directions)
  }

  /** The neighbours come in the order right, down, left, up, each once. */
  lemma NeighborOrder(row: int, col: int, height: int, width: int)
    ensures InDirectionOrder((row, col), Neighbors(row, col, height, width))
    ensures var r := Neighbors(row, col, height, width);
      forall i, j | 0 <= i < j < |r| :: r[i] != r[j]
  {
    DirectionsInOrderFrom(row, col, height, width, 0);
    assert Directions[0..] == Directions;
  }

  /** Four neighbours inside the grid, three on an edge, two in a corner. */
  lemma NeighborCount(row: int, col: int, height: int, width: int)
    requires 2 <= height && 2 <= width
    requires 0 <= row < height && 0 <= col < width
    ensures var n := |Neighbors(row, col, height, width)|;
      var rowEdge := row == 0 || row == height - 1;
      var colEdge := col == 0 || col == width - 1;
      && (!rowEdge && !colEdge ==> n == 4)
      && (rowEdge != colEdge ==> n == 3)
      && (rowEdge && colEdge ==> n == 2)
  {
    var n := |Neighbors(row, col, height, width)|;
    var right := if col + 1 < width then 1 else 0;
    var down := if row + 1 < height then 1 else 0;
    var left := if col >= 1 then 1 else 0;
    var up := if row >= 1 then 1 else 0;
    assert Directions[0] == (0, 1) && Directions[1] == (1, 0) && Directions[2] == (0, -1) && Directions[3] == (-1, 0);
    assert InsideFrom(row, col, height, width, 3) == up;
    assert InsideFrom(row, col, height, width, 2) == left + up;
    assert InsideFrom(row, col, height, width, 1) == down + left + up;
    assert InsideFrom(row, col, height, width, 0) == right + down + left + up;
    NeighborsAlongLengthFrom(row, col, height, width, 0);
    assert Directions[0..] == Directions;
  }

  /** How many of the directions from position k stay inside the box. */
  function InsideFrom(row: int, col: int, height: int, width: int, k: nat): nat
    requires k <= 4
    decreases 4 - k
  {
    if k == 4 then 0
    else |KeepInside(row + Directions[k].0, col + Directions[k].1, height, width)| + InsideFrom(row, col, height, width, k + 1)
  }

  lemma {:induction false} NeighborsAlongLengthFrom(row: int, col: int, height: int, width: int, k: nat)
    requires k <= 4
    ensures |NeighborsAlong(row, col, height, width, Directions[k..])| == InsideFrom(row, col, height, width, k)
    decreases 4 - k
  {
    if k == 4 {
      assert Directions[k..] == [];
    } else {
      NeighborsAlongFrom(row, col, height, width, k);
      NeighborsAlongLengthFrom(row, col, height, width, k + 1);
    }
  }
}
