# Smoke Basin heightmap analysis, in Dafny

A model of the heightmap analysis of Advent of Code 2021, day 9
(`adventofcode/Year2021/Day09.py`). A heightmap is a rectangular grid of
single-digit heights. The program

- lists the orthogonal neighbours of a cell (`get_neighbors`), in the order
  right, down, left, up, keeping those inside the grid;
- scans the grid row by row for low points, the cells strictly lower than every
  neighbour (`get_low_points`);
- answers part one with the sum of the risk levels (height + 1) of the low
  points (`day09a`);
- answers part two by flood-filling a basin from each low point with an
  explicit stack and a set, then multiplying the sizes of the (up to) three
  largest basins (`day09b`).

Modules, one per component:

| file | module | models |
|---|---|---|
| heightmap.dfy | `Heightmap` | the grid (`seq<seq<int>>` with `Rectangular` and `Digits`), cells, `get_neighbors` |
| low_points.dfy | `LowPointFinder` | `get_low_points` (nested loops appending to a list) and the risk sum |
| basins.dfy | `Basins` | the stack/set flood fill of `day09b`, uphill reachability, the termination measure |
| top_three.dfy | `TopThree` | `sorted(...)[-3:]` and `np.prod` |
| day09.dfy | `Day09` | `day09a` and `day09b` on a parsed grid |
| example.dfy | `Day09Example` | the puzzle's worked example and boundary grids |

The loops of the source are methods with loop invariants (`ScanRow`,
`GetLowPoints`, `PushUphillNeighbors`, `ExploreBasin`, `ExploreBasins`), each
proved against a specification function: `LowPoints` (every low point once, in
row-major order) and `Basin` (every cell reachable from the low point by uphill
steps).

The guard on line 106, `heightmap[neighbor] not in basin`, asks whether a
*height* is in a set of (row, col) tuples. An integer never equals a tuple, so
the test is always true and never prunes a push. The model keeps it as written
(`Basins.InCellSet` applied to an `Int` value). A cell can therefore be pushed
and popped more than once. The flood fill still ends, because every push goes to
a strictly higher cell: the sum over the stack of 5^(9 - h) drops on every pop
(`Basins.PushedWeight`). The resulting set is still exactly the uphill-reachable
cells (`Basins.ExploreBasin`).

Behaviour of the code that the model keeps:

- The neighbours come in the order right, down, left, up (line 57).
- With fewer than three basins no error is raised: the product is taken over
  whatever the `[-3:]` slice keeps, and over no basins it is the empty product 1
  (lines 111-112).
- The "already visited" test compares a height, not a cell, and prunes nothing
  (line 106).
- A non-empty grid need not have a low point: on a plateau no cell is strictly
  lower than its neighbours (line 73; `Day09Example.FlatGrid`).

## Model

| member | source | states |
|---|---|---|
| `Heightmap.Neighbors` | adventofcode/Year2021/Day09.py:54-60 | a cell is in the result iff it lies inside `[0,height) x [0,width)` and differs from (row, col) by exactly 1 in exactly one coordinate; at most four cells |
| `Heightmap.NeighborOrder` | adventofcode/Year2021/Day09.py:57-58 | the neighbours come in the order right, down, left, up (the in-bounds subsequence of the direction list) and no cell appears twice |
| `Heightmap.NeighborCount` | adventofcode/Year2021/Day09.py:57-58 | on a grid at least 2 x 2: 4 neighbours for an interior cell, 3 on an edge, 2 in a corner |
| `Heightmap.DirectionsAreAdjacent` | adventofcode/Year2021/Day09.py:57 | the four offsets (0,1), (1,0), (0,-1), (-1,0) are exactly the steps to an orthogonally adjacent cell |
| `LowPointFinder.NeighborHeights` | adventofcode/Year2021/Day09.py:67-72 | one height per neighbour, in neighbour order, each the height of that in-bounds neighbour (at most four; digits on a digit grid) |
| `LowPointFinder.IsLowPoint` | adventofcode/Year2021/Day09.py:73 | the test holds iff the cell's height is below every entry of its neighbours' height list |
| `LowPointFinder.AllAboveMeaning` | adventofcode/Year2021/Day09.py:73 | `all([h < n for n in hs])` holds iff h is below every element of hs (true for no elements) |
| `LowPointFinder.LowPointMeaning` | adventofcode/Year2021/Day09.py:67-73 | a cell passes the low-point test iff its height is strictly below that of every in-bounds adjacent cell; in a 1 x 1 grid the single cell passes |
| `LowPointFinder.LowerNeighbor` | adventofcode/Year2021/Day09.py:73 | a cell with an adjacent cell that is no higher is not a low point |
| `LowPointFinder.LowPoints` | adventofcode/Year2021/Day09.py:63-75 | the list holds exactly the in-bounds low points, strictly increasing in row-major order, with no duplicates |
| `LowPointFinder.SortedBySet` | adventofcode/Year2021/Day09.py:65-66 | two row-major sorted lists with the same cells are equal: the scan order is fixed by the set of low points |
| `LowPointFinder.LowPointsBySet` | adventofcode/Year2021/Day09.py:63-75 | any row-major sorted list holding exactly the low points is the scan's result |
| `LowPointFinder.ScanRow` | adventofcode/Year2021/Day09.py:66-74 | the inner loop appends, left to right, exactly the low points of one row to the list |
| `LowPointFinder.GetLowPoints` | adventofcode/Year2021/Day09.py:63-75 | the nested loops return `LowPoints(g)`: every low point once, nothing else, in row-major order |
| `LowPointFinder.RiskSum` | adventofcode/Year2021/Day09.py:87 | with heights 0..9 the sum of height + 1 over n low points lies between n and 10 n |
| `LowPointFinder.RiskSumAppend` | adventofcode/Year2021/Day09.py:87 | the risk sum of a concatenation is the sum of the parts' risk sums |
| `Basins.UphillStep` | adventofcode/Year2021/Day09.py:101-105 | a step the fill may take goes from a cell to one of its own neighbours (never to itself) |
| `Basins.InCellSet` | adventofcode/Year2021/Day09.py:106 | an integer (a height) is never in a set of cells, so the guard never prunes; a cell is in it iff it is a member |
| `Basins.PathRises` | adventofcode/Year2021/Day09.py:105 | along a path of uphill steps heights rise strictly, every cell is in bounds and no cell after the first is a 9 |
| `Basins.ReachableStep` | adventofcode/Year2021/Day09.py:104-108 | one uphill step from a cell the low point reaches gives another reachable cell |
| `Basins.BasinShape` | adventofcode/Year2021/Day09.py:96-105 | a basin contains its low point (so has size at least 1); every other member is in bounds, not a 9, and strictly higher than the low point |
| `Basins.BasinByClosure` | adventofcode/Year2021/Day09.py:98-108 | a set holding the low point, closed under uphill steps and containing only reachable cells is exactly the basin |
| `Basins.Pow5Step` | adventofcode/Year2021/Day09.py:98 | five times the weight 5^a is at most 5^b when a < b, so four pushes of higher cells weigh less than one popped cell |
| `Basins.PushedWeight` | adventofcode/Year2021/Day09.py:98-108 | pushing at most four cells strictly higher than the popped cell adds less than the popped cell's weight: the stack's weight strictly drops |
| `Basins.PushUphillNeighbors` | adventofcode/Year2021/Day09.py:101-108 | appends to the stack exactly the neighbours that are strictly higher and not 9, each once, in the order right, down, left, up (the line-106 guard prunes none), and the stack's weight drops |
| `Basins.ExploreBasin` | adventofcode/Year2021/Day09.py:96-108 | the flood fill ends and returns exactly the cells reachable from the low point by orthogonal steps to strictly higher non-9 cells |
| `Day09.BasinsOfAt` | adventofcode/Year2021/Day09.py:94-109 | the k-th entry of the basin list is the basin of the k-th low point |
| `Day09.BasinSizesPositive` | adventofcode/Year2021/Day09.py:96-100 | every basin size is at least 1 |
| `Day09.Sizes` | adventofcode/Year2021/Day09.py:111 | one size per basin, in order, each the basin's cardinality; all at least 1 when no basin is empty |
| `Day09.ExploreBasins` | adventofcode/Year2021/Day09.py:94-109 | the outer loop returns the basin of each low point, in the low points' order |
| `Day09.Day09a` | adventofcode/Year2021/Day09.py:84-87 | the answer is the risk sum over the scanned low points, between their count and ten times it, and 0 iff there are none |
| `Day09.Day09b` | adventofcode/Year2021/Day09.py:90-112 | the answer is the top-three product of the basin sizes of the low points, and at least 1 |
| `TopThree.InsertPermutes` | adventofcode/Year2021/Day09.py:111 | inserting x adds exactly x to the multiset of values |
| `TopThree.InsertSorted` | adventofcode/Year2021/Day09.py:111 | inserting into an ascending list keeps it ascending |
| `TopThree.Sort` | adventofcode/Year2021/Day09.py:111 | `sorted` returns an ascending permutation of its input |
| `TopThree.SortedUnique` | adventofcode/Year2021/Day09.py:111 | two ascending lists with the same values are the same list |
| `TopThree.LastThree` | adventofcode/Year2021/Day09.py:111 | `[-3:]` keeps the last min(3, n) elements |
| `TopThree.Product` | adventofcode/Year2021/Day09.py:112 | the empty product is 1 and a product of values all at least 1 is at least 1 |
| `TopThree.LargestKept` | adventofcode/Year2021/Day09.py:111 | the kept sizes are min(3, n) of the sizes, and no size left out is larger than any kept one |
| `TopThree.KeptAreSizes` | adventofcode/Year2021/Day09.py:111 | every kept value is one of the sizes |
| `TopThree.TopThreeProduct` | adventofcode/Year2021/Day09.py:111-112 | 1 for no basins; at least 1 when every size is |
| `TopThree.TopThreeOrderIndependent` | adventofcode/Year2021/Day09.py:111-112 | the answer does not depend on the order of the size list |
| `TopThree.TopThreeOfSorted` | adventofcode/Year2021/Day09.py:111-112 | the answer is the product of the last three of any ascending arrangement of the sizes |
| `TopThree.ExampleProduct` | adventofcode/Year2021/Day09.py:45 | sizes 3, 9, 14 and 9, in any order, give 1134 |
| `Day09Example.ExampleLowsAreLow` | adventofcode/Year2021/Day09.py:14 | in the worked example the cells (0,1), (0,9), (2,2), (4,6) are low points |
| `Day09Example.ExampleOnlyLowPoints` | adventofcode/Year2021/Day09.py:14 | in the worked example no other cell is a low point |
| `Day09Example.ExampleLowPoints` | adventofcode/Year2021/Day09.py:14 | the scan of the worked example yields exactly [(0,1), (0,9), (2,2), (4,6)] |
| `Day09Example.ExampleRisk` | adventofcode/Year2021/Day09.py:15 | those four low points have risk levels summing to 15 |
| `Day09Example.ExampleDay09a` | adventofcode/Year2021/Day09.py:15 | part one on the worked example gives 15 |
| `Day09Example.SingleCellLow` | adventofcode/Year2021/Day09.py:63-87 | in a 1 x 1 grid the cell is the one low point and the risk sum is its height + 1 |
| `Day09Example.SingleCellBasin` | adventofcode/Year2021/Day09.py:94-112 | in a 1 x 1 grid the one basin has size 1 and part two gives 1 |
| `Day09Example.FlatGrid` | adventofcode/Year2021/Day09.py:63-112 | a grid of equal heights at least two columns wide has no low point, risk sum 0, and part two gives the empty product 1 |

## Left out

- `parse_input` (reading the file, building the numpy array): the grid is given
  as rows of integers, with `Rectangular` and, where heights matter, `Digits`
  (0..9) as preconditions. The code does no validation of its own, so ragged rows
  or non-digit characters are not modelled.
- numpy: `heightmap.shape` becomes the row count and the first row's length, and
  `int(np.prod(...))` becomes an exact product of unbounded integers (no
  float conversion, no overflow).
- The basin sizes of the worked example (3, 9, 14, 9) are not derived from the
  grid; only the top-three product of those sizes is proved.
- Whether basins of different low points overlap or cover the non-9 cells: the
  code computes each basin on its own and promises neither.
- Python's `sorted` is modelled by an insertion sort; only its result (the
  ascending permutation, which is unique) is observable.
- The stack holds the same cells in the same order as the source's list, but a
  `set` is modelled by Dafny's mathematical set, so Python's hashing and
  iteration order are not modelled; the code only takes the set's size.
