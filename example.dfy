/** The worked example of the puzzle: a 5 x 10 heightmap. */
module Day09Example {
  import opened Heightmap
  import opened LowPointFinder
  import opened Basins
  import opened TopThree
  import opened Day09

  const Example: Grid := [
    [2, 1, 9, 9, 9, 4, 3, 2, 1, 0],
    [3, 9, 8, 7, 8, 9, 4, 9, 2, 1],
    [9, 8, 5, 6, 7, 8, 9, 8, 9, 2],
    [8, 7, 6, 7, 8, 9, 6, 7, 8, 9],
    [9, 8, 9, 9, 9, 6, 5, 6, 7, 8]]

  /** The low points the puzzle names, in scan order. */
  const ExampleLows: seq<Coord> := [(0, 1), (0, 9), (2, 2), (4, 6)]

  /** The four named cells are low points: a 1 and a 0 in the top row, a 5 in
      the middle row and a 5 in the bottom row. */
  lemma ExampleLowsAreLow(p: Coord)
    requires p in ExampleLows
    ensures WellFormed(Example) && InBounds(Example, p) && IsLowPoint(Example, p)
  {
    assert WellFormed(Example);
    if p == (0, 1) {
      LowByDirections(Example, (0, 1));
    } else if p == (0, 9) {
      LowByDirections(Example, (0, 9));
    } else if p == (2, 2) {
      LowByDirections(Example, (2, 2));
    } else {
      LowByDirections(Example, (4, 6));
    }
  }

  /** The four low points, in scan order, have risk levels 2, 1, 6 and 6: 15 in all. */
  lemma ExampleRisk()
    ensures WellFormed(Example)
    ensures RiskSum(Example, ExampleLows) == 15
  {
    assert WellFormed(Example);
  }

  /** Row 0: no cell other than columns 1 and 9 is a low point. */
  lemma ExampleRow0NotLow()
    ensures forall c | 0 <= c < 10 && c != 1 && c != 9 :: !IsLowPoint(Example, (0, c))
  {
    forall c | 0 <= c < 10 && c != 1 && c != 9 ensures !IsLowPoint(Example, (0, c)) {
      if c == 0 {
        LowerNeighbor(Example, (0, 0), (0, 1));
      } else if c == 2 {
        LowerNeighbor(Example, (0, 2), (0, 3));
      } else if c == 3 {
        LowerNeighbor(Example, (0, 3), (0, 4));
      } else if c == 4 {
        LowerNeighbor(Example, (0, 4), (0, 5));
      } else if c == 5 {
        LowerNeighbor(Example, (0, 5), (0, 6));
      } else if c == 6 {
        LowerNeighbor(Example, (0, 6), (0, 7));
      } else if c == 7 {
        LowerNeighbor(Example, (0, 7), (0, 8));
      } else {
        LowerNeighbor(Example, (0, 8), (0, 9));
      }
    }
  }

  /** Row 1: no cell is a low point. */
  lemma ExampleRow1NotLow()
    ensures forall c | 0 <= c < 10 :: !IsLowPoint(Example, (1, c))
  {
    forall c | 0 <= c < 10 ensures !IsLowPoint(Example, (1, c)) {
      if c == 0 {
        LowerNeighbor(Example, (1, 0), (0, 0));
      } else if c == 1 {
        LowerNeighbor(Example, (1, 1), (1, 2));
      } else if c == 2 {
        LowerNeighbor(Example, (1, 2), (1, 3));
      } else if c == 3 {
        LowerNeighbor(Example, (1, 3), (2, 3));
      } else if c == 4 {
        LowerNeighbor(Example, (1, 4), (2, 4));
      } else if c == 5 {
        LowerNeighbor(Example, (1, 5), (1, 6));
      } else if c == 6 {
        LowerNeighbor(Example, (1, 6), (0, 6));
      } else if c == 7 {
        LowerNeighbor(Example, (1, 7), (1, 8));
      } else if c == 8 {
        LowerNeighbor(Example, (1, 8), (1, 9));
      } else {
        LowerNeighbor(Example, (1, 9), (0, 9));
      }
    }
  }

  /** Row 2: no cell other than column 2 is a low point. */
  lemma ExampleRow2NotLow()
    ensures forall c | 0 <= c < 10 && c != 2 :: !IsLowPoint(Example, (2, c))
  {
    forall c | 0 <= c < 10 && c != 2 ensures !IsLowPoint(Example, (2, c)) {
      if c == 0 {
        LowerNeighbor(Example, (2, 0), (2, 1));
      } else if c == 1 {
        LowerNeighbor(Example, (2, 1), (2, 2));
      } else if c == 3 {
        LowerNeighbor(Example, (2, 3), (2, 2));
      } else if c == 4 {
        LowerNeighbor(Example, (2, 4), (2, 3));
      } else if c == 5 {
        LowerNeighbor(Example, (2, 5), (2, 4));
      } else if c == 6 {
        LowerNeighbor(Example, (2, 6), (2, 7));
      } else if c == 7 {
        LowerNeighbor(Example, (2, 7), (3, 7));
      } else if c == 8 {
        LowerNeighbor(Example, (2, 8), (2, 9));
      } else {
        LowerNeighbor(Example, (2, 9), (1, 9));
      }
    }
  }

  /** Row 3: no cell is a low point. */
  lemma ExampleRow3NotLow()
    ensures forall c | 0 <= c < 10 :: !IsLowPoint(Example, (3, c))
  {
    forall c | 0 <= c < 10 ensures !IsLowPoint(Example, (3, c)) {
      if c == 0 {
        LowerNeighbor(Example, (3, 0), (3, 1));
      } else if c == 1 {
        LowerNeighbor(Example, (3, 1), (3, 2));
      } else if c == 2 {
        LowerNeighbor(Example, (3, 2), (2, 2));
      } else if c == 3 {
        LowerNeighbor(Example, (3, 3), (3, 2));
      } else if c == 4 {
        LowerNeighbor(Example, (3, 4), (3, 3));
      } else if c == 5 {
        LowerNeighbor(Example, (3, 5), (3, 6));
      } else if c == 6 {
        LowerNeighbor(Example, (3, 6), (4, 6));
      } else if c == 7 {
        LowerNeighbor(Example, (3, 7), (4, 7));
      } else if c == 8 {
        LowerNeighbor(Example, (3, 8), (4, 8));
      } else {
        LowerNeighbor(Example, (3, 9), (4, 9));
      }
    }
  }

  /** Row 4: no cell other than column 6 is a low point. */
  lemma ExampleRow4NotLow()
    ensures forall c | 0 <= c < 10 && c != 6 :: !IsLowPoint(Example, (4, c))
  {
    forall c | 0 <= c < 10 && c != 6 ensures !IsLowPoint(Example, (4, c)) {
      if c == 0 {
        LowerNeighbor(Example, (4, 0), (4, 1));
      } else if c == 1 {
        LowerNeighbor(Example, (4, 1), (3, 1));
      } else if c == 2 {
        LowerNeighbor(Example, (4, 2), (4, 3));
      } else if c == 3 {
        LowerNeighbor(Example, (4, 3), (4, 4));
      } else if c == 4 {
        LowerNeighbor(Example, (4, 4), (4, 5));
      } else if c == 5 {
        LowerNeighbor(Example, (4, 5), (4, 6));
      } else if c == 7 {
        LowerNeighbor(Example, (4, 7), (4, 6));
      } else if c == 8 {
        LowerNeighbor(Example, (4, 8), (4, 7));
      } else {
        LowerNeighbor(Example, (4, 9), (4, 8));
      }
    }
  }

  /** Every low point of the example is one of the four. */
  lemma ExampleOnlyLowPoints(p: Coord)
    requires WellFormed(Example) && InBounds(Example, p) && IsLowPoint(Example, p)
    ensures p in ExampleLows
  {
    if p.0 == 0 {
      ExampleRow0NotLow();
    } else if p.0 == 1 {
      ExampleRow1NotLow();
    } else if p.0 == 2 {
      ExampleRow2NotLow();
    } else if p.0 == 3 {
      ExampleRow3NotLow();
    } else {
      ExampleRow4NotLow();
    }
  }

  /** The scan finds exactly the four low points, in the order (0, 1), (0, 9),
      (2, 2), (4, 6). */
  lemma ExampleLowPoints()
    ensures WellFormed(Example)
    ensures LowPoints(Example) == ExampleLows
  {
    assert WellFormed(Example);
    forall p | p in ExampleLows ensures InBounds(Example, p) && IsLowPoint(Example, p) {
      ExampleLowsAreLow(p);
    }
    forall p | InBounds(Example, p) && IsLowPoint(Example, p) ensures p in ExampleLows {
      ExampleOnlyLowPoints(p);
    }
    assert RowMajorSorted(ExampleLows);
    LowPointsBySet(Example, ExampleLows);
  }

  /** `day09a` on the example: the risk levels 2, 1, 6 and 6 add up to 15. */
  lemma ExampleDay09a()
    ensures WellFormed(Example)
    ensures RiskSum(Example, LowPoints(Example)) == 15
  {
    ExampleLowPoints();
    ExampleRisk();
  }

  /** A grid of one cell: the cell is a low point (it has no neighbours) and
      the risk sum is its height plus one. */
  lemma SingleCellLow(h: int)
    requires 0 <= h <= 9
    ensures WellFormed([[h]])
    ensures LowPoints([[h]]) == [(0, 0)]
    ensures RiskSum([[h]], LowPoints([[h]])) == h + 1
  {
    var g := [[h]];
    assert WellFormed(g);
    LowPointMeaning(g, (0, 0));
    assert RowMajorSorted([(0, 0)]);
    LowPointsBySet(g, [(0, 0)]);
    assert RiskSum(g, [(0, 0)]) == h + 1;
  }

  /** A grid of one cell: its basin is itself, and the answer of part two is
      the product of the single size 1. */
  lemma SingleCellBasin(h: int)
    requires 0 <= h <= 9
    ensures BasinSizes([[h]], LowPoints([[h]])) == [1]
    ensures TopThreeProduct(BasinSizes([[h]], LowPoints([[h]]))) == 1
  {
    var g := [[h]];
    SingleCellLow(h);
    BasinShape(g, (0, 0));
    assert Basin(g, (0, 0)) == {(0, 0)};
    BasinsOfAt(g, [(0, 0)], 0);
    assert BasinSizes(g, [(0, 0)]) == [1];
    assert Product(LastThree(Sort([1]))) == 1;
  }

  /** A grid at least two columns wide whose cells all have the same height
      (all 9s, say) has no low point, since every cell has an equal neighbour:
      the risk sum is 0 and part two multiplies no sizes, giving 1. */
  lemma FlatGrid(g: Grid, h: int)
    requires Rectangular(g) && Width(g) >= 2
    requires forall r, c | 0 <= r < |g| && 0 <= c < Width(g) :: g[r][c] == h
    ensures LowPoints(g) == []
    ensures RiskSum(g, LowPoints(g)) == 0
    ensures TopThreeProduct(BasinSizes(g, LowPoints(g))) == 1
  {
    forall p | InBounds(g, p) ensures !IsLowPoint(g, p) {
      if p.1 + 1 < Width(g) {
        LowerNeighbor(g, p, (p.0, p.1 + 1));
      } else {
        LowerNeighbor(g, p, (p.0, p.1 - 1));
      }
    }
    LowPointsBySet(g, []);
  }
}
