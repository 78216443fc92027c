/** Basins: the stack-and-set flood fill that `day09b` runs from each low point. */
module Basins {
  import opened Heightmap

  /** One step the flood fill takes: from p to an adjacent cell q that is strictly
      higher than p and is not a 9. */
  predicate UphillStep(g: Grid, p: Coord, q: Coord)
    requires Rectangular(g)
    ensures UphillStep(g, p, q) ==> q != p && q in Neighbors(p.0, p.1, |g|, Width(g))
  {
    && InBounds(g, p) && InBounds(g, q) && Adjacent(p, q)
    && At(g, p) < At(g, q) && At(g, q) != 9
  }

  /** A walk through the grid made of uphill steps. */
  ghost predicate IsUphillPath(g: Grid, path: seq<Coord>)
    requires Rectangular(g)
  {
    && |path| >= 1
    && InBounds(g, path[0])
    && forall i | 0 <= i < |path| - 1 :: UphillStep(g, path[i], path[i + 1])
  }

  /** The cell `to` can be reached from `from` by uphill steps (in none when they are equal). */
  ghost predicate Reachable(g: Grid, from: Coord, to: Coord)
    requires Rectangular(g)
  {
    exists path :: IsUphillPath(g, path) && path[0] == from && path[|path| - 1] == to
  }

  /** The basin of lp: every cell lp reaches by uphill steps. */
  ghost function Basin(g: Grid, lp: Coord): set<Coord>
    requires Rectangular(g)
  {
    set r, c | 0 <= r < |g| && 0 <= c < Width(g) && Reachable(g, lp, (r, c)) :: (r, c)
  }

  /** Heights rise strictly along an uphill path, every cell of it is inside the
      grid, and every cell after the first is not a 9. */
  lemma {:induction false} PathRises(g: Grid, path: seq<Coord>, j: nat)
    requires Rectangular(g) && IsUphillPath(g, path) && j < |path|
    ensures InBounds(g, path[j])
    ensures j > 0 ==> At(g, path[0]) < At(g, path[j]) && At(g, path[j]) != 9
  {
    if j > 0 {
      PathRises(g, path, j - 1);
      assert UphillStep(g, path[j - 1], path[j]);
    }
  }

  /** An uphill step from a reachable cell reaches another one. */
  lemma ReachableStep(g: Grid, lp: Coord, p: Coord, q: Coord)
    requires Rectangular(g) && Reachable(g, lp, p) && UphillStep(g, p, q)
    ensures Reachable(g, lp, q)
  {
    var path :| IsUphillPath(g, path) && path[0] == lp && path[|path| - 1] == p;
    var longer := path + [q];
    assert forall i | 0 <= i < |longer| - 1 :: longer[i] == path[i];
    assert IsUphillPath(g, longer);
  }

  /** The cells uphill of lp: lp itself, then only non-9 cells strictly higher than lp. */
  lemma BasinShape(g: Grid, lp: Coord)
    requires Rectangular(g) && InBounds(g, lp)
    ensures lp in Basin(g, lp)
    ensures |Basin(g, lp)| >= 1
    ensures forall q | q in Basin(g, lp) ::
      InBounds(g, q) && (q != lp ==> At(g, lp) < At(g, q) && At(g, q) != 9)
  {
    assert IsUphillPath(g, [lp]);
    assert Reachable(g, lp, (lp.0, lp.1));
    forall q | q in Basin(g, lp)
      ensures InBounds(g, q) && (q != lp ==> At(g, lp) < At(g, q) && At(g, q) != 9)
    {
      var path :| IsUphillPath(g, path) && path[0] == lp && path[|path| - 1] == q;
      PathRises(g, path, |path| - 1);
    }
  }

  /** Every reachable cell of the grid is in the basin. */
  lemma InBasin(g: Grid, lp: Coord, q: Coord)
    requires Rectangular(g) && Reachable(g, lp, q)
    ensures q in Basin(g, lp)
  {
    var path :| IsUphillPath(g, path) && path[0] == lp && path[|path| - 1] == q;
    PathRises(g, path, |path| - 1);
    assert q == (q.0, q.1);
  }

  /** No uphill step leaves s. */
  ghost predicate ClosedUphill(g: Grid, s: set<Coord>)
    requires Rectangular(g)
  {
    forall b, q | b in s && UphillStep(g, b, q) :: q in s
  }

  /** A set that holds lp and that no uphill step leaves holds every cell lp reaches. */
  lemma {:induction false} ClosedHoldsPath(g: Grid, s: set<Coord>, path: seq<Coord>, j: nat)
    requires Rectangular(g) && ClosedUphill(g, s)
    requires IsUphillPath(g, path) && path[0] in s && j < |path|
    ensures path[j] in s
  {
    if j > 0 {
      ClosedHoldsPath(g, s, path, j - 1);
      assert UphillStep(g, path[j - 1], path[j]);
    }
  }

  lemma ClosedHoldsReachable(g: Grid, s: set<Coord>, lp: Coord, q: Coord)
    requires Rectangular(g) && ClosedUphill(g, s) && lp in s && Reachable(g, lp, q)
    ensures q in s
  {
    var path :| IsUphillPath(g, path) && path[0] == lp && path[|path| - 1] == q;
    ClosedHoldsPath(g, s, path, |path| - 1);
  }

  /** A value on the left of Python's `in`: an integer or a (row, col) tuple. */
  datatype Value = Int(n: int) | Pair(cell: Coord)

  /** Python's `v in s` for a set s of (row, col) tuples: an integer equals no
      tuple, so a height is never in the set and the guard `not in basin` on
      line 106 never prunes. */
  predicate InCellSet(v: Value, s: set<Coord>)
    ensures v.Int? ==> !InCellSet(v, s)
    ensures v.Pair? ==> (InCellSet(v, s) <==> v.cell in s)
  {
    v.Pair? && v.cell in s
  }

  function Pow5(n: nat): (r: nat)
    ensures r >= 1
  {
    if n == 0 then 1 else 5 * Pow5(n - 1)
  }

  /** Five times the weight of a cell is at most the weight of any strictly lower cell. */
  lemma {:induction false} Pow5Step(a: nat, b: nat)
    requires a < b
    ensures 5 * Pow5(a) <= Pow5(b)
  {
    if a + 1 < b {
      Pow5Step(a, b - 1);
    }
  }

  /** The termination measure of the flood fill: each stack entry at height h weighs 5^(9-h). */
  function Weight(g: Grid, stack: seq<Coord>): nat
    requires WellFormed(g) && forall s | s in stack :: InBounds(g, s)
  {
    if stack == [] then 0
    else Weight(g, stack[..|stack| - 1]) + Pow5(9 - At(g, stack[|stack| - 1]))
  }

  /** A set that holds lp, that no uphill step leaves and whose cells lp all
      reaches is lp's basin. */
  lemma BasinByClosure(g: Grid, lp: Coord, s: set<Coord>)
    requires Rectangular(g) && lp in s && ClosedUphill(g, s)
    requires forall b | b in s :: Reachable(g, lp, b)
    ensures forall q :: q in s <==> Reachable(g, lp, q)
    ensures s == Basin(g, lp)
  {
    forall q | Reachable(g, lp, q) ensures q in s {
      ClosedHoldsReachable(g, s, lp, q);
    }
    forall q | q in Basin(g, lp) ensures q in s {
      var path :| IsUphillPath(g, path) && path[0] == lp && path[|path| - 1] == q;
    }
    forall q | q in s ensures q in Basin(g, lp) {
      InBasin(g, lp, q);
    }
  }

  /** Weights add up over concatenation. */
  lemma {:induction false} WeightAppend(g: Grid, a: seq<Coord>, b: seq<Coord>)
    requires WellFormed(g) && (forall s | s in a :: InBounds(g, s)) && (forall s | s in b :: InBounds(g, s))
    ensures Weight(g, a + b) == Weight(g, a) + Weight(g, b)
  {
    if b == [] {
      assert a + b == a;
    } else {
      var b' := b[..|b| - 1];
      assert (a + b)[..|a + b| - 1] == a + b';
      WeightAppend(g, a, b');
    }
  }

  /** n * u, by repeated addition: keeps the weight bounds below in linear
      arithmetic, where the solver needs no help with products of variables. */
  function Copies(n: nat, u: nat): nat {
    if n == 0 then 0 else Copies(n - 1, u) + u
  }

  /** Fewer copies weigh no more. */
  lemma {:induction false} CopiesMono(n: nat, k: nat, u: nat)
    requires n <= k
    ensures Copies(n, u) <= Copies(k, u)
  {
    if n < k {
      CopiesMono(n, k - 1, u);
    }
  }

  /** Weight of a list with one more cell at its end. */
  lemma WeightSnoc(g: Grid, s: seq<Coord>, q: Coord)
    requires WellFormed(g) && InBounds(g, q) && forall t | t in s :: InBounds(g, t)
    ensures Weight(g, s + [q]) == Weight(g, s) + Pow5(9 - At(g, q))
  {
    assert (s + [q])[..|s|] == s;
  }

  /** Cells all higher than p weigh together at most a fifth of p's weight each. */
  lemma {:induction false} WeightOfHigher(g: Grid, p: Coord, s: seq<Coord>)
    requires WellFormed(g) && InBounds(g, p)
    requires forall t | t in s :: InBounds(g, t) && At(g, p) < At(g, t)
    ensures 5 * Weight(g, s) <= Copies(|s|, Pow5(9 - At(g, p)))
  {
    if s != [] {
      var init, last := s[..|s| - 1], s[|s| - 1];
      assert forall t | t in init :: t in s;
      WeightOfHigher(g, p, init);
      Pow5Step(9 - At(g, last), 9 - At(g, p));
    }
  }

  /** Pushing at most four cells higher than p onto the stack adds less than
      p's own weight. */
  lemma PushedWeight(g: Grid, p: Coord, stack: seq<Coord>, pushed: seq<Coord>)
    requires WellFormed(g) && InBounds(g, p) && |pushed| <= 4
    requires forall s | s in stack :: InBounds(g, s)
    requires forall q | q in pushed :: UphillStep(g, p, q)
    ensures forall s | s in stack + pushed :: InBounds(g, s)
    ensures Weight(g, stack + pushed) < Weight(g, stack) + Pow5(9 - At(g, p))
  {
    var u := Pow5(9 - At(g, p));
    assert forall q | q in pushed :: InBounds(g, q) && At(g, p) < At(g, q);
    assert forall s | s in stack + pushed :: s in stack || s in pushed;
    WeightOfHigher(g, p, pushed);
    CopiesMono(|pushed|, 4, u);
    assert Copies(4, u) == Copies(3, u) + u == Copies(2, u) + 2 * u == Copies(1, u) + 3 * u == 4 * u;
    WeightAppend(g, stack, pushed);
  }

  /** Lines 101-108: push, in neighbour order, every neighbour of p that is one
      uphill step away.  The test on line 106 asks whether a height is in a set
      of cells, which is never true, so it prunes nothing. */
  method PushUphillNeighbors(g: Grid, p: Coord, basin: set<Coord>, stack: seq<Coord>)
    returns (stack': seq<Coord>, ghost pushed: seq<Coord>)
    requires WellFormed(g) && InBounds(g, p)
    requires forall s | s in stack :: InBounds(g, s)
    ensures stack' == stack + pushed
    ensures forall q | q in pushed :: UphillStep(g, p, q)
    ensures forall q | UphillStep(g, p, q) :: q in pushed
    ensures forall s | s in stack' :: InBounds(g, s)
    ensures InDirectionOrder(p, pushed)
    ensures Weight(g, stack') < Weight(g, stack) + Pow5(9 - At(g, p))
  {
    stack', pushed := stack, [];
    var neighbors := Neighbors(p.0, p.1, |g|, Width(g));
    NeighborOrder(p.0, p.1, |g|, Width(g));
    for i := 0 to |neighbors|
      invariant stack' == stack + pushed
      invariant |pushed| <= i
      invariant InDirectionOrder(p, pushed)
      invariant i < |neighbors| ==> forall j | 0 <= j < |pushed| :: DirectionIndex(p, pushed[j]) < DirectionIndex(p, neighbors[i])
      invariant forall q | q in pushed :: UphillStep(g, p, q)
      invariant forall k | 0 <= k < i && UphillStep(g, p, neighbors[k]) :: neighbors[k] in pushed
    {
      var q := neighbors[i];
      if At(g, p) < At(g, q) && At(g, q) != 9 && !InCellSet(Int(At(g, q)), basin) {
        assert (stack + pushed) + [q] == stack + (pushed + [q]);
        stack', pushed := stack' + [q], pushed + [q];
      }
    }
    forall q | UphillStep(g, p, q) ensures q in pushed {
      var k :| 0 <= k < |neighbors| && neighbors[k] == q;
    }
    PushedWeight(g, p, stack, pushed);
  }

  /** The flood fill of `day09b` (lines 96-109): pop a cell, put it in the set,
      push its uphill neighbours, until the stack is empty.  Cells can be pushed
      more than once, but the set comes out as exactly the cells lp reaches by
      uphill steps. */
  method ExploreBasin(g: Grid, lp: Coord) returns (basin: set<Coord>)
    requires WellFormed(g) && InBounds(g, lp)
    ensures forall q :: q in basin <==> Reachable(g, lp, q)
    ensures basin == Basin(g, lp)
  {
    var stack := [lp];
    basin := {};
    assert IsUphillPath(g, [lp]);
    while stack != []
      invariant forall s | s in stack :: InBounds(g, s) && Reachable(g, lp, s)
      invariant forall b | b in basin :: Reachable(g, lp, b)
      invariant lp in basin || lp in stack
      invariant forall b, q | b in basin && UphillStep(g, b, q) :: q in basin || q in stack
      decreases Weight(g, stack)
    {
      ghost var before := stack;
      var p := stack[|stack| - 1];
      stack := stack[..|stack| - 1];
      assert before == stack + [p];
      WeightSnoc(g, stack, p);
      basin := basin + {p};
      ghost var pushed;
      stack, pushed := PushUphillNeighbors(g, p, basin, stack);
      forall q | q in pushed ensures Reachable(g, lp, q) {
        ReachableStep(g, lp, p, q);
      }
    }
    BasinByClosure(g, lp, basin);
  }
}
