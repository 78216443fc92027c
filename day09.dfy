/** The two puzzle answers of `day09a` and `day09b`, on an already parsed grid. */
module Day09 {
  import opened Heightmap
  import opened LowPointFinder
  import opened Basins
  import opened TopThree

  /** `day09a`: the sum of the risk levels of all low points. */
  method Day09a(g: Grid) returns (risk: int)
    requires WellFormed(g)
    ensures risk == RiskSum(g, LowPoints(g))
    ensures |LowPoints(g)| <= risk <= 10 * |LowPoints(g)|
    ensures risk == 0 <==> LowPoints(g) == []
  {
    var lowPoints := GetLowPoints(g);
    risk := RiskSum(g, lowPoints);
  }

  /** The basin of each of the given cells, in their order. */
  ghost function BasinsOf(g: Grid, lows: seq<Coord>): seq<set<Coord>>
    requires Rectangular(g)
  {
    if lows == [] then [] else BasinsOf(g, lows[..|lows| - 1]) + [Basin(g, lows[|lows| - 1])]
  }

  /** Entry k is the basin of the k-th cell. */
  lemma {:induction false} BasinsOfAt(g: Grid, lows: seq<Coord>, k: nat)
    requires Rectangular(g) && k < |lows|
    ensures |BasinsOf(g, lows)| == |lows| && BasinsOf(g, lows)[k] == Basin(g, lows[k])
  {
    var n := |lows| - 1;
    if k < n {
      BasinsOfAt(g, lows[..n], k);
    } else if n > 0 {
      BasinsOfAt(g, lows[..n], 0);
    }
  }

  /** The size of each basin, in order: `[len(b) for b in basins]`. */
  function Sizes(basins: seq<set<Coord>>): (sizes: seq<int>)
    ensures |sizes| == |basins| && forall k | 0 <= k < |sizes| :: sizes[k] == |basins[k]|
    ensures (forall k | 0 <= k < |basins| :: basins[k] != {}) ==> forall x | x in sizes :: x >= 1
  {
    seq(|basins|, k requires 0 <= k < |basins| => |basins[k]|)
  }

  /** The size of the basin of each of the given cells, in their order. */
  ghost function BasinSizes(g: Grid, lows: seq<Coord>): seq<int>
    requires Rectangular(g)
  {
    Sizes(BasinsOf(g, lows))
  }

  /** Every basin holds at least its own low point. */
  lemma BasinSizesPositive(g: Grid, lows: seq<Coord>)
    requires Rectangular(g) && forall p | p in lows :: InBounds(g, p)
    ensures forall x | x in BasinSizes(g, lows) :: x >= 1
  {
    var sizes := BasinSizes(g, lows);
    if lows != [] {
      BasinsOfAt(g, lows, 0);
    }
    forall x | x in sizes ensures x >= 1 {
      var k :| 0 <= k < |sizes| && sizes[k] == x;
      BasinsOfAt(g, lows, k);
      BasinShape(g, lows[k]);
    }
  }

  /** The loop of `day09b`: flood-fill a basin from each low point, in order. */
  method ExploreBasins(g: Grid, lows: seq<Coord>) returns (basins: seq<set<Coord>>)
    requires WellFormed(g) && forall p | p in lows :: InBounds(g, p)
    ensures basins == BasinsOf(g, lows)
  {
    basins := [];
    for k := 0 to |lows|
      invariant basins == BasinsOf(g, lows[..k])
    {
      var basin := ExploreBasin(g, lows[k]);
      assert lows[..k + 1][..k] == lows[..k];
      basins := basins + [basin];
    }
    assert lows[..|lows|] == lows;
  }

  /** `day09b`: flood-fill a basin from every low point, then multiply the
      sizes of the (up to) three largest. */
  method Day09b(g: Grid) returns (answer: int)
    requires WellFormed(g)
    ensures answer == TopThreeProduct(BasinSizes(g, LowPoints(g)))
    ensures answer >= 1
  {
    var lowPoints := GetLowPoints(g);
    var basins := ExploreBasins(g, lowPoints);
    var sizes := Sizes(basins);
    BasinSizesPositive(g, lowPoints);
    answer := TopThreeProduct(sizes);
  }
}
