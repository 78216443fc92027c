/** Low points (`get_low_points`) and their risk levels (the sum in `day09a`). */
module LowPointFinder {
  import opened Heightmap

  /** The heights of the neighbours of p, in neighbour order: one per
      neighbour, each a digit when the grid's heights are. */
  function NeighborHeights(g: Grid, p: Coord): (hs: seq<int>)
    requires Rectangular(g) && InBounds(g, p)
    ensures var ns := Neighbors(p.0, p.1, |g|, Width(g));
      |hs| == |ns| <= 4 && forall k | 0 <= k < |hs| :: InBounds(g, ns[k]) && hs[k] == At(g, ns[k])
    ensures Digits(g) ==> forall k | 0 <= k < |hs| :: 0 <= hs[k] <= 9
  {
    var ns := Neighbors(p.0, p.1, |g|, Width(g));
    seq(|ns|, k requires 0 <= k < |ns| => At(g, ns[k]))
  }

  /** `all([x < n for n in hs])` */
  predicate AllAbove(x: int, hs: seq<int>) {
    hs == [] || (x < hs[0] && AllAbove(x, hs[1..]))
  }

  lemma {:induction false} AllAboveMeaning(x: int, hs: seq<int>)
    ensures AllAbove(x, hs) <==> forall k | 0 <= k < |hs| :: x < hs[k]
  {
    if hs != [] {
      AllAboveMeaning(x, hs[1..]);
      assert forall k | 1 <= k < |hs| :: hs[k] == hs[1..][k - 1];
    }
  }

  /** The test at line 73: p is strictly lower than every one of its neighbours. */
  predicate IsLowPoint(g: Grid, p: Coord)
    requires Rectangular(g) && InBounds(g, p)
    ensures var hs := NeighborHeights(g, p);
      IsLowPoint(g, p) <==> forall k | 0 <= k < |hs| :: At(g, p) < hs[k]
  {
    AllAboveMeaning(At(g, p), NeighborHeights(g, p));
    AllAbove(At(g, p), NeighborHeights(g, p))
  }

  /** A low point is lower than every cell adjacent to it, and nothing else is
      one; a cell with no neighbours (a 1x1 grid) is a low point. */
  lemma LowPointMeaning(g: Grid, p: Coord)
    requires Rectangular(g) && InBounds(g, p)
    ensures IsLowPoint(g, p) <==> forall q | InBounds(g, q) && Adjacent(p, q) :: At(g, p) < At(g, q)
    ensures |g| == 1 && Width(g) == 1 ==> IsLowPoint(g, p)
  {
    var ns := Neighbors(p.0, p.1, |g|, Width(g));
    var hs := NeighborHeights(g, p);
    AllAboveMeaning(At(g, p), hs);
    if IsLowPoint(g, p) {
      forall q | InBounds(g, q) && Adjacent(p, q) ensures At(g, p) < At(g, q) {
        var k :| 0 <= k < |ns| && ns[k] == q;
        assert hs[k] == At(g, q);
      }
    }
    if |g| == 1 && Width(g) == 1 {
      assert ns == [];
    }
  }

  /** A cell lower than each of its right, down, left and up cells that lies
      inside the grid is a low point. */
  lemma LowByDirections(g: Grid, p: Coord)
    requires Rectangular(g) && InBounds(g, p)
    requires InBounds(g, (p.0, p.1 + 1)) ==> At(g, p) < At(g, (p.0, p.1 + 1))
    requires InBounds(g, (p.0 + 1, p.1)) ==> At(g, p) < At(g, (p.0 + 1, p.1))
    requires InBounds(g, (p.0, p.1 - 1)) ==> At(g, p) < At(g, (p.0, p.1 - 1))
    requires InBounds(g, (p.0 - 1, p.1)) ==> At(g, p) < At(g, (p.0 - 1, p.1))
    ensures IsLowPoint(g, p)
  {
    LowPointMeaning(g, p);
  }

  /** A cell with an adjacent cell no higher than itself is not a low point. */
  lemma LowerNeighbor(g: Grid, p: Coord, q: Coord)
    requires Rectangular(g) && InBounds(g, p) && InBounds(g, q) && Adjacent(p, q)
    requires At(g, q) <= At(g, p)
    ensures !IsLowPoint(g, p)
  {
    LowPointMeaning(g, p);
  }

  /** p comes strictly before q in row-major order. */
  predicate RowMajorBefore(p: Coord, q: Coord) {
    p.0 < q.0 || (p.0 == q.0 && p.1 < q.1)
  }

  /** Strictly increasing in row-major order: scan order, no repeats. */
  predicate RowMajorSorted(s: seq<Coord>) {
    forall i, j | 0 <= i < j < |s| :: RowMajorBefore(s[i], s[j])
  }

  /** The cells (row, 0) .. (row, n-1) that are in s, left to right. */
  function RowCells(s: set<Coord>, row: int, n: nat): seq<Coord> {
    if n == 0 then []
    else RowCells(s, row, n - 1) + (if (row, n - 1) in s then [(row, n - 1)] else [])
  }

  /** The cells of rows 0 .. n-1, columns 0 .. width-1, that are in s, in
      row-major order. */
  function RowsCells(s: set<Coord>, n: nat, width: nat): seq<Coord> {
    if n == 0 then [] else RowsCells(s, n - 1, width) + RowCells(s, n - 1, width)
  }

  /** Two row-major sorted lists, every cell of the first before every cell of
      the second, concatenate to a row-major sorted list. */
  lemma SortedConcat(a: seq<Coord>, b: seq<Coord>)
    requires RowMajorSorted(a) && RowMajorSorted(b)
    requires forall p, q | p in a && q in b :: RowMajorBefore(p, q)
    ensures RowMajorSorted(a + b)
  {
    forall i, j | 0 <= i < j < |a + b| ensures RowMajorBefore((a + b)[i], (a + b)[j]) {
      if j < |a| {
        assert (a + b)[i] == a[i] && (a + b)[j] == a[j];
      } else if i >= |a| {
        assert (a + b)[i] == b[i - |a|] && (a + b)[j] == b[j - |a|];
      } else {
        assert (a + b)[i] in a && (a + b)[j] in b;
      }
    }
  }

  /** One row's cells: exactly the cells of s in that row among the first n columns. */
  lemma {:induction false} RowCellsMembers(s: set<Coord>, row: int, n: nat)
    ensures forall p :: p in RowCells(s, row, n) <==> p.0 == row && 0 <= p.1 < n && p in s
  {
    if n > 0 {
      RowCellsMembers(s, row, n - 1);
    }
  }

  lemma {:induction false} RowCellsSorted(s: set<Coord>, row: int, n: nat)
    ensures RowMajorSorted(RowCells(s, row, n))
  {
    if n > 0 {
      RowCellsSorted(s, row, n - 1);
      RowCellsMembers(s, row, n - 1);
      var a := RowCells(s, row, n - 1);
      var b := if (row, n - 1) in s then [(row, n - 1)] else [];
      SortedConcat(a, b);
    }
  }

  /** The first n rows' cells: exactly the cells of s in the box, sorted. */
  lemma {:induction false} RowsCellsFacts(s: set<Coord>, n: nat, width: nat)
    ensures forall p :: p in RowsCells(s, n, width) <==> 0 <= p.0 < n && 0 <= p.1 < width && p in s
    ensures RowMajorSorted(RowsCells(s, n, width))
  {
    if n > 0 {
      RowsCellsFacts(s, n - 1, width);
      RowCellsMembers(s, n - 1, width);
      RowCellsSorted(s, n - 1, width);
      SortedConcat(RowsCells(s, n - 1, width), RowCells(s, n - 1, width));
    }
  }

  /** The low points of the grid, as a set. */
  function LowPointSet(g: Grid): (s: set<Coord>)
    requires Rectangular(g)
    ensures forall p :: p in s <==> InBounds(g, p) && IsLowPoint(g, p)
  {
    set r, c | 0 <= r < |g| && 0 <= c < Width(g) && IsLowPoint(g, (r, c)) :: (r, c)
  }

  /** All low points of the grid, in the order of the row-by-row scan: every
      low point once, nothing else, strictly increasing in row-major order. */
  function LowPoints(g: Grid): (s: seq<Coord>)
    requires Rectangular(g)
    ensures forall p :: p in s <==> InBounds(g, p) && IsLowPoint(g, p)
    ensures RowMajorSorted(s)
    ensures forall i, j | 0 <= i < j < |s| :: s[i] != s[j]
  {
    RowsCellsFacts(LowPointSet(g), |g|, Width(g));
    RowsCells(LowPointSet(g), |g|, Width(g))
  }

  /** Two lists holding the same cells are both empty or both not. */
  lemma SameCellsEmpty(a: seq<Coord>, b: seq<Coord>)
    requires forall p :: p in a <==> p in b
    ensures a == [] <==> b == []
  {
    if a != [] {
      assert a[0] in b;
    }
    if b != [] {
      assert b[0] in a;
    }
  }

  /** Two row-major sorted lists holding the same cells are the same list:
      the scan order is fixed by which cells are low points. */
  lemma {:induction false} SortedBySet(a: seq<Coord>, b: seq<Coord>)
    requires RowMajorSorted(a) && RowMajorSorted(b)
    requires forall p :: p in a <==> p in b
    ensures a == b
  {
    SameCellsEmpty(a, b);
    if a == [] {
    } else {
      assert a[0] in b;
      var b0 := b[0];
      assert b0 in a;
      var i :| 0 <= i < |a| && a[i] == b0;
      var j :| 0 <= j < |b| && b[j] == a[0];
      assert a[0] == b0;
      var a', b' := a[1..], b[1..];
      forall p ensures p in a' <==> p in b' {
        if p in a' {
          var k :| 0 <= k < |a'| && a'[k] == p;
          assert a[k + 1] == p && RowMajorBefore(a[0], a[k + 1]);
          assert p in b && p != b[0];
        }
        if p in b' {
          var k :| 0 <= k < |b'| && b'[k] == p;
          assert b[k + 1] == p && RowMajorBefore(b[0], b[k + 1]);
          assert p in a && p != a[0];
        }
      }
      assert RowMajorSorted(a') && RowMajorSorted(b') by {
        forall x, y | 0 <= x < y < |a'| ensures RowMajorBefore(a'[x], a'[y]) {
          assert a'[x] == a[x + 1] && a'[y] == a[y + 1];
        }
        forall x, y | 0 <= x < y < |b'| ensures RowMajorBefore(b'[x], b'[y]) {
          assert b'[x] == b[x + 1] && b'[y] == b[y + 1];
        }
      }
      SortedBySet(a', b');
      assert a == [a[0]] + a' && b == [b[0]] + b';
    }
  }

  /** The scan's list is the row-major listing of whatever cells are low points. */
  lemma LowPointsBySet(g: Grid, expected: seq<Coord>)
    requires Rectangular(g) && RowMajorSorted(expected)
    requires forall p :: p in expected <==> InBounds(g, p) && IsLowPoint(g, p)
    ensures LowPoints(g) == expected
  {
    SortedBySet(LowPoints(g), expected);
  }

  /** One column further along a row: the cell is added when it is a low point. */
  lemma RowCellsNext(g: Grid, row: nat, col: nat)
    requires Rectangular(g) && row < |g| && col < Width(g)
    ensures RowCells(LowPointSet(g), row, col + 1)
         == RowCells(LowPointSet(g), row, col) + (if IsLowPoint(g, (row, col)) then [(row, col)] else [])
  {
  }

  /** The inner loop of `get_low_points`: append the low points of one row,
      left to right. */
  method ScanRow(g: Grid, row: nat, lows: seq<Coord>) returns (lows': seq<Coord>)
    requires Rectangular(g) && row < |g|
    ensures lows' == lows + RowCells(LowPointSet(g), row, Width(g))
  {
    lows' := lows;
    ghost var done: seq<Coord> := [];
    for col := 0 to Width(g)
      invariant done == RowCells(LowPointSet(g), row, col)
      invariant lows' == lows + done
    {
      RowCellsNext(g, row, col);
      if IsLowPoint(g, (row, col)) {
        assert (lows + done) + [(row, col)] == lows + (done + [(row, col)]);
        lows', done := lows' + [(row, col)], done + [(row, col)];
      }
    }
  }

  /** `get_low_points(heightmap)`: scan the grid row by row, keeping the low points. */
  method GetLowPoints(g: Grid) returns (lows: seq<Coord>)
    requires Rectangular(g)
    ensures lows == LowPoints(g)
    ensures forall p :: p in lows <==> InBounds(g, p) && IsLowPoint(g, p)
    ensures RowMajorSorted(lows)
  {
    lows := [];
    for row := 0 to |g|
      invariant lows == RowsCells(LowPointSet(g), row, Width(g))
    {
      lows := ScanRow(g, row, lows);
    }
  }

  /** The risk level of a cell: its height plus one. */
  function RiskLevel(g: Grid, p: Coord): int
    requires Rectangular(g) && InBounds(g, p)
  {
    At(g, p) + 1
  }

  /** `sum([heightmap[lp] + 1 for lp in low_points])`: with digit heights each
      term lies in 1..10, so the sum lies between |lows| and 10 * |lows|. */
  function RiskSum(g: Grid, lows: seq<Coord>): (r: int)
    requires Rectangular(g) && forall p | p in lows :: InBounds(g, p)
    ensures Digits(g) ==> |lows| <= r <= 10 * |lows|
  {
    if lows == [] then 0 else RiskLevel(g, lows[0]) + RiskSum(g, lows[1..])
  }

  /** The sum splits over concatenation, so it adds up one risk level per cell. */
  lemma {:induction false} RiskSumAppend(g: Grid, a: seq<Coord>, b: seq<Coord>)
    requires Rectangular(g) && forall p | p in a + b :: InBounds(g, p)
    ensures RiskSum(g, a + b) == RiskSum(g, a) + RiskSum(g, b)
  {
    if a == [] {
      assert a + b == b;
    } else {
      assert (a + b)[0] == a[0];
      assert (a + b)[1..] == a[1..] + b;
      RiskSumAppend(g, a[1..], b);
    }
  }
}
