/** The last step of `day09b`: sort the basin sizes, keep the last (up to)
    three and multiply them. */
module TopThree {

  predicate SortedAsc(s: seq<int>) {
    forall i, j | 0 <= i < j < |s| :: s[i] <= s[j]
  }

  /** x put into an ascending list before the first element not below it. */
  function Insert(x: int, s: seq<int>): seq<int> {
    if s == [] then [x]
    else if x <= s[0] then [x] + s
    else [s[0]] + Insert(x, s[1..])
  }

  lemma {:induction false} InsertPermutes(x: int, s: seq<int>)
    ensures multiset(Insert(x, s)) == multiset(s) + multiset{x}
  {
    if s != [] {
      assert s == [s[0]] + s[1..];
      if x > s[0] {
        InsertPermutes(x, s[1..]);
      }
    }
  }

  /** No element of t is below lo. */
  predicate AllAtLeast(lo: int, t: seq<int>) {
    forall j | 0 <= j < |t| :: lo <= t[j]
  }

  /** Inserting a value not below lo into a list with no element below lo keeps it so. */
  lemma {:induction false} InsertAtLeast(lo: int, x: int, t: seq<int>)
    requires lo <= x && AllAtLeast(lo, t)
    ensures AllAtLeast(lo, Insert(x, t))
  {
    if t != [] && x > t[0] {
      InsertAtLeast(lo, x, t[1..]);
      assert Insert(x, t) == [t[0]] + Insert(x, t[1..]);
    }
  }

  /** An ascending list with a head not above any of its elements stays ascending. */
  lemma SortedCons(h: int, t: seq<int>)
    requires SortedAsc(t) && AllAtLeast(h, t)
    ensures SortedAsc([h] + t)
  {
    var r := [h] + t;
    forall i, j | 0 <= i < j < |r| ensures r[i] <= r[j] {
      assert r[j] == t[j - 1];
      if i > 0 {
        assert r[i] == t[i - 1];
      }
    }
  }

  lemma {:induction false} InsertSorted(x: int, s: seq<int>)
    requires SortedAsc(s)
    ensures SortedAsc(Insert(x, s))
  {
    if s == [] {
      assert Insert(x, s) == [x];
    } else if x <= s[0] {
      SortedCons(x, s);
    } else {
      var t := s[1..];
      assert SortedAsc(t);
      assert AllAtLeast(s[0], t);
      InsertSorted(x, t);
      InsertAtLeast(s[0], x, t);
      SortedCons(s[0], Insert(x, t));
    }
  }

  /** `sorted(sizes)`: the same values in ascending order. */
  function Sort(s: seq<int>): (r: seq<int>)
    ensures SortedAsc(r) && multiset(r) == multiset(s)
  {
    if s == [] then []
    else
      var rest := Sort(s[1..]);
      InsertSorted(s[0], rest);
      InsertPermutes(s[0], rest);
      assert s == [s[0]] + s[1..];
      Insert(s[0], rest)
  }

  /** The slice `[-3:]`: the last three elements, or all when there are fewer. */
  function LastThree(s: seq<int>): (r: seq<int>)
    ensures |r| == if |s| < 3 then |s| else 3
    ensures r == s[|s| - |r|..]
  {
    if |s| <= 3 then s else s[|s| - 3..]
  }

  lemma AtLeastOneTimes(a: int, b: int)
    ensures a >= 1 && b >= 1 ==> a * b >= 1
  {
    if a >= 1 && b >= 1 {
      assert a * b >= 1 * b;
    }
  }

  /** `np.prod`: the product of the elements, 1 for none; at least 1 when every
      element is. */
  function Product(s: seq<int>): (r: int)
    ensures s == [] ==> r == 1
    ensures (forall x | x in s :: x >= 1) ==> r >= 1
  {
    if s == [] then 1
    else
      var rest := Product(s[1..]);
      assert s[0] in s && forall x | x in s[1..] :: x in s;
      AtLeastOneTimes(s[0], rest);
      s[0] * rest
  }

  /** In an ascending list, nothing before position n is above anything from n on. */
  lemma PrefixBelowSuffix(t: seq<int>, n: nat)
    requires SortedAsc(t) && n <= |t|
    ensures forall x, y | x in multiset(t[..n]) && y in t[n..] :: x <= y
  {
    forall x, y | x in multiset(t[..n]) && y in t[n..] ensures x <= y {
      var i :| 0 <= i < n && t[..n][i] == x;
      var j :| 0 <= j < |t| - n && t[n..][j] == y;
      assert t[i] == x && t[n + j] == y;
    }
  }

  /** Splitting a list splits its values. */
  lemma SplitValues(t: seq<int>, n: nat)
    requires n <= |t|
    ensures multiset(t) == multiset(t[..n]) + multiset(t[n..])
  {
    assert t == t[..n] + t[n..];
  }

  /** What is multiplied are min(3, n) of the sizes, and none left out is larger
      than any kept: the largest ones. */
  lemma LargestKept(sizes: seq<int>)
    ensures var kept := LastThree(Sort(sizes));
      && |kept| == (if |sizes| < 3 then |sizes| else 3)
      && multiset(kept) <= multiset(sizes)
      && forall x, y | x in multiset(sizes) - multiset(kept) && y in kept :: x <= y
  {
    var t := Sort(sizes);
    var kept := LastThree(t);
    var n := |t| - |kept|;
    assert kept == t[n..];
    SplitValues(t, n);
    assert multiset(sizes) - multiset(kept) == multiset(t[..n]);
    assert |t| == |multiset(t)| == |multiset(sizes)| == |sizes|;
    PrefixBelowSuffix(t, n);
  }

  /** Every value kept is one of the sizes. */
  lemma KeptAreSizes(sizes: seq<int>)
    ensures forall x | x in LastThree(Sort(sizes)) :: x in sizes
  {
    var kept := LastThree(Sort(sizes));
    LargestKept(sizes);
    forall x | x in kept ensures x in sizes {
      assert x in multiset(kept);
      assert x in multiset(sizes);
    }
  }

  /** `np.prod(sorted(sizes)[-3:])`: 1 for no sizes, at least 1 when every size is. */
  function TopThreeProduct(sizes: seq<int>): (r: int)
    ensures sizes == [] ==> r == 1
    ensures (forall x | x in sizes :: x >= 1) ==> r >= 1
  {
    KeptAreSizes(sizes);
    Product(LastThree(Sort(sizes)))
  }

  /** The head of an ascending list is its least value. */
  lemma HeadIsLeast(a: seq<int>, x: int)
    requires SortedAsc(a) && x in multiset(a)
    ensures a[0] <= x
  {
    var i :| 0 <= i < |a| && a[i] == x;
  }

  /** Dropping the head of a list with the given values leaves the rest. */
  lemma TailValues(a: seq<int>)
    requires a != []
    ensures multiset(a[1..]) == multiset(a) - multiset{a[0]}
  {
    assert a == [a[0]] + a[1..];
  }

  /** Dropping the head of an ascending list leaves an ascending list. */
  lemma SortedTail(a: seq<int>)
    requires a != [] && SortedAsc(a)
    ensures SortedAsc(a[1..])
  {
    var t := a[1..];
    forall i, j | 0 <= i < j < |t| ensures t[i] <= t[j] {
      assert t[i] == a[i + 1] && t[j] == a[j + 1];
    }
  }

  /** Two ascending lists holding the same values start with the same value
      and hold the same values after it. */
  lemma SameHead(a: seq<int>, b: seq<int>)
    requires SortedAsc(a) && SortedAsc(b) && multiset(a) == multiset(b) && a != []
    ensures b != [] && a[0] == b[0] && multiset(a[1..]) == multiset(b[1..])
  {
    assert a[0] in multiset(a);
    HeadIsLeast(a, b[0]);
    HeadIsLeast(b, a[0]);
    TailValues(a);
    TailValues(b);
  }

  /** Two ascending lists holding the same values are the same list. */
  lemma {:induction false} SortedUnique(a: seq<int>, b: seq<int>)
    requires SortedAsc(a) && SortedAsc(b) && multiset(a) == multiset(b)
    ensures a == b
  {
    if a == [] {
      assert |multiset(b)| == 0;
    } else {
      SameHead(a, b);
      SortedTail(a);
      SortedTail(b);
      SortedUnique(a[1..], b[1..]);
      assert a == [a[0]] + a[1..];
      assert b == [b[0]] + b[1..];
    }
  }

  /** The answer depends only on which sizes occur how often, not on their order. */
  lemma TopThreeOrderIndependent(a: seq<int>, b: seq<int>)
    requires multiset(a) == multiset(b)
    ensures TopThreeProduct(a) == TopThreeProduct(b)
  {
    SortedUnique(Sort(a), Sort(b));
  }

  /** The answer can be read off any ascending arrangement of the sizes: the
      product of its last three. */
  lemma TopThreeOfSorted(sizes: seq<int>, sorted: seq<int>)
    requires SortedAsc(sorted) && multiset(sizes) == multiset(sorted)
    ensures TopThreeProduct(sizes) == Product(LastThree(sorted))
  {
    SortedUnique(Sort(sizes), sorted);
  }

  /** 9 * 9 * 14 */
  lemma ExampleKept()
    ensures SortedAsc([3, 9, 9, 14])
    ensures Product(LastThree([3, 9, 9, 14])) == 1134
  {
    assert LastThree([3, 9, 9, 14]) == [9, 9, 14];
    assert Product([14]) == 14;
    assert Product([9, 14]) == 126;
  }

  /** The basin sizes of the worked example, 3, 9, 14 and 9 in any order,
      give 9 * 14 * 9. */
  lemma ExampleProduct(sizes: seq<int>)
    requires multiset(sizes) == multiset{3, 9, 9, 14}
    ensures TopThreeProduct(sizes) == 1134
  {
    assert multiset([3, 9, 9, 14]) == multiset{3, 9, 9, 14};
    ExampleKept();
    TopThreeOfSorted(sizes, [3, 9, 9, 14]);
  }
}
