/**
 The median of a non-empty list of reals, as numpy computes it: sort the
 values, take the middle one, or the mean of the two middle ones when the
 count is even.
 */
module Median {

  ghost predicate Sorted(s: seq<real>) {
    forall i, j :: 0 <= i < j < |s| ==> s[i] <= s[j]
  }

  /** Inserts x into a sorted list, keeping it sorted and losing nothing. */
  function Insert(x: real, s: seq<real>): (r: seq<real>)
    requires Sorted(s)
    ensures Sorted(r)
    ensures multiset(r) == multiset(s) + multiset{x}
    ensures |r| == |s| + 1
  {
    if |s| == 0 then [x]
    else if x <= s[0] then [x] + s
    else
      assert s == [s[0]] + s[1..];
      var rest := Insert(x, s[1..]);
      InsertBelow(s[0], x, s[1..], rest);
      [s[0]] + rest
  }

  /** Every element of the insertion result is at least a lower bound of its inputs. */
  lemma InsertBelow(lo: real, x: real, s: seq<real>, r: seq<real>)
    requires lo <= x
    requires forall i :: 0 <= i < |s| ==> lo <= s[i]
    requires multiset(r) == multiset(s) + multiset{x}
    ensures forall i :: 0 <= i < |r| ==> lo <= r[i]
  {
    forall i | 0 <= i < |r| ensures lo <= r[i] {
      assert r[i] in multiset(r);
      if r[i] != x {
        assert r[i] in multiset(s);
        var k :| 0 <= k < |s| && s[k] == r[i];
      }
    }
  }

  /** Insertion sort: a sorted permutation of the input. */
  function Sort(s: seq<real>): (r: seq<real>)
    ensures Sorted(r)
    ensures multiset(r) == multiset(s)
    ensures |r| == |s|
  {
    if |s| == 0 then []
    else
      assert s == [s[0]] + s[1..];
      Insert(s[0], Sort(s[1..]))
  }

  /** A value of a sorted list lies between its first and its last element. */
  lemma SortedBounds(s: seq<real>, v: real)
    requires Sorted(s)
    requires v in multiset(s)
    ensures s[0] <= v <= s[|s| - 1]
  {
    var k :| 0 <= k < |s| && s[k] == v;
  }

  /** Removing the head of a list removes one occurrence of it from the multiset. */
  lemma TailMultiset(a: seq<real>)
    requires |a| > 0
    ensures multiset(a[1..]) == multiset(a) - multiset{a[0]}
  {
    assert a == [a[0]] + a[1..];
  }

  lemma SortedTail(a: seq<real>)
    requires |a| > 0 && Sorted(a)
    ensures Sorted(a[1..])
  {
    forall i, j | 0 <= i < j < |a[1..]| ensures a[1..][i] <= a[1..][j] {
      assert a[1..][i] == a[i + 1] && a[1..][j] == a[j + 1];
    }
  }

  /** Two sorted lists holding the same values are the same list. */
  lemma {:induction false} SortedUnique(a: seq<real>, b: seq<real>)
    requires Sorted(a) && Sorted(b)
    requires multiset(a) == multiset(b)
    ensures a == b
    decreases |a|
  {
    assert |a| == |multiset(a)| == |multiset(b)| == |b|;
    if |a| > 0 {
      assert a[0] in multiset(a);
      assert b[0] in multiset(b);
      SortedBounds(b, a[0]);
      SortedBounds(a, b[0]);
      assert a[0] == b[0];
      TailMultiset(a);
      TailMultiset(b);
      SortedTail(a);
      SortedTail(b);
      SortedUnique(a[1..], b[1..]);
      assert a == [a[0]] + a[1..];
      assert b == [b[0]] + b[1..];
    }
  }

  /** How many values are at most r. */
  function CountAtMost(xs: seq<real>, r: real): nat {
    if |xs| == 0 then 0 else (if xs[0] <= r then 1 else 0) + CountAtMost(xs[1..], r)
  }

  /** How many values are at least r. */
  function CountAtLeast(xs: seq<real>, r: real): nat {
    if |xs| == 0 then 0 else (if xs[0] >= r then 1 else 0) + CountAtLeast(xs[1..], r)
  }

  /** If the first k values are at most r, at least k values are. */
  lemma {:induction false} CountAtMostPrefix(s: seq<real>, r: real, k: nat)
    requires k <= |s|
    requires forall i :: 0 <= i < k ==> s[i] <= r
    ensures CountAtMost(s, r) >= k
    decreases |s|
  {
    if k > 0 {
      CountAtMostPrefix(s[1..], r, k - 1);
    }
  }

  /** If the values from index j on are at least r, at least |s| - j values are. */
  lemma {:induction false} CountAtLeastSuffix(s: seq<real>, r: real, j: nat)
    requires j <= |s|
    requires forall i :: j <= i < |s| ==> s[i] >= r
    ensures CountAtLeast(s, r) >= |s| - j
    decreases |s|
  {
    if |s| > 0 {
      if j == 0 {
        CountAtLeastSuffix(s[1..], r, 0);
      } else {
        CountAtLeastSuffix(s[1..], r, j - 1);
      }
    }
  }

  /** Inserting x counts x once more and leaves every other value counted as before. */
  lemma {:induction false} InsertCounts(x: real, s: seq<real>, r: real)
    requires Sorted(s)
    ensures CountAtMost(Insert(x, s), r) == CountAtMost(s, r) + (if x <= r then 1 else 0)
    ensures CountAtLeast(Insert(x, s), r) == CountAtLeast(s, r) + (if x >= r then 1 else 0)
    decreases |s|
  {
    if |s| == 0 {
    } else if x <= s[0] {
      assert ([x] + s)[1..] == s;
    } else {
      SortedTail(s);
      InsertCounts(x, s[1..], r);
      var t := [s[0]] + Insert(x, s[1..]);
      assert t[1..] == Insert(x, s[1..]);
    }
  }

  /** Sorting keeps the counts. */
  lemma {:induction false} SortCounts(xs: seq<real>, r: real)
    ensures CountAtMost(Sort(xs), r) == CountAtMost(xs, r)
    ensures CountAtLeast(Sort(xs), r) == CountAtLeast(xs, r)
    decreases |xs|
  {
    if |xs| > 0 {
      SortCounts(xs[1..], r);
      InsertCounts(xs[0], Sort(xs[1..]), r);
    }
  }

  /**
   v is the k-th smallest of the values (counting from 1): at least k
   values are at most v, and at least |xs| - k + 1 are at least v.
   */
  ghost predicate Ranked(xs: seq<real>, v: real, k: int) {
    CountAtMost(xs, v) >= k && CountAtLeast(xs, v) >= |xs| - k + 1
  }

  /** Values at most a and values at least b > a are different values. */
  lemma {:induction false} CountsDisjoint(xs: seq<real>, a: real, b: real)
    requires a < b
    ensures CountAtMost(xs, a) + CountAtLeast(xs, b) <= |xs|
    decreases |xs|
  {
    if |xs| > 0 {
      CountsDisjoint(xs[1..], a, b);
    }
  }

  /** The k-th smallest value is unique, so `Ranked` pins a value down. */
  lemma RankedUnique(xs: seq<real>, a: real, b: real, k: int)
    requires Ranked(xs, a, k) && Ranked(xs, b, k)
    ensures a == b
  {
    if a < b {
      CountsDisjoint(xs, a, b);
    } else if b < a {
      CountsDisjoint(xs, b, a);
    }
  }

  /**
   The middle of a sorted list: for n = 2k + 1 values its (k + 1)-th
   smallest, for n = 2k the mean of its k-th and (k + 1)-th smallest. Either
   way at least half of the values (rounded up) are at most it, and at least
   half are at least it.
   */
  function MiddleOfSorted(s: seq<real>): (r: real)
    requires |s| > 0
    requires Sorted(s)
    ensures s[0] <= r <= s[|s| - 1]
    ensures CountAtMost(s, r) >= (|s| + 1) / 2 && CountAtLeast(s, r) >= (|s| + 1) / 2
    ensures |s| % 2 == 1 ==> r == s[|s| / 2] && Ranked(s, r, (|s| + 1) / 2)
    ensures |s| % 2 == 0 ==>
      && Ranked(s, s[|s| / 2 - 1], |s| / 2)
      && Ranked(s, s[|s| / 2], |s| / 2 + 1)
      && r == (s[|s| / 2 - 1] + s[|s| / 2]) / 2.0
  {
    var n := |s|;
    var r := if n % 2 == 1 then s[n / 2] else (s[n / 2 - 1] + s[n / 2]) / 2.0;
    CountAtMostPrefix(s, r, (n + 1) / 2);
    CountAtLeastSuffix(s, r, n / 2);
    if n % 2 == 0 then
      CountAtMostPrefix(s, s[n / 2 - 1], n / 2);
      CountAtLeastSuffix(s, s[n / 2 - 1], n / 2 - 1);
      CountAtMostPrefix(s, s[n / 2], n / 2 + 1);
      CountAtLeastSuffix(s, s[n / 2], n / 2);
      r
    else r
  }

  /** A value's rank is the same in xs and in its sorted permutation. */
  lemma SortKeepsRank(xs: seq<real>, v: real, k: int)
    ensures Ranked(Sort(xs), v, k) <==> Ranked(xs, v, k)
  {
    SortCounts(xs, v);
  }

  /**
   r is a median of the non-empty xs in the sense of `np.median`: for
   n = 2k + 1 values one of them, the (k + 1)-th smallest; for n = 2k the
   mean of the k-th and the (k + 1)-th smallest values. At least half of the
   values (rounded up) are at most it and at least half are at least it,
   and it lies between the smallest and the largest value.
   */
  ghost predicate IsMedian(xs: seq<real>, r: real) {
    && |xs| > 0
    && CountAtMost(xs, r) >= (|xs| + 1) / 2 && CountAtLeast(xs, r) >= (|xs| + 1) / 2
    && (|xs| % 2 == 1 ==> Ranked(xs, r, (|xs| + 1) / 2) && exists i :: 0 <= i < |xs| && xs[i] == r)
    && (|xs| % 2 == 0 ==>
         exists i, j :: (0 <= i < |xs| && 0 <= j < |xs| &&
           Ranked(xs, xs[i], |xs| / 2) && Ranked(xs, xs[j], |xs| / 2 + 1) && r == (xs[i] + xs[j]) / 2.0))
    && (exists lo :: 0 <= lo < |xs| && xs[lo] <= r && forall k :: 0 <= k < |xs| ==> xs[lo] <= xs[k])
    && (exists hi :: 0 <= hi < |xs| && r <= xs[hi] && forall k :: 0 <= k < |xs| ==> xs[k] <= xs[hi])
  }

  /** The mean of the k-th and (k + 1)-th smallest values is determined by xs and k. */
  lemma MeanOfRanksUnique(xs: seq<real>, k: int, a: real, b: real)
    requires exists i, j :: (0 <= i < |xs| && 0 <= j < |xs| &&
      Ranked(xs, xs[i], k) && Ranked(xs, xs[j], k + 1) && a == (xs[i] + xs[j]) / 2.0)
    requires exists i, j :: (0 <= i < |xs| && 0 <= j < |xs| &&
      Ranked(xs, xs[i], k) && Ranked(xs, xs[j], k + 1) && b == (xs[i] + xs[j]) / 2.0)
    ensures a == b
  {
    var i, j :| 0 <= i < |xs| && 0 <= j < |xs| && Ranked(xs, xs[i], k) && Ranked(xs, xs[j], k + 1) && a == (xs[i] + xs[j]) / 2.0;
    var i', j' :| 0 <= i' < |xs| && 0 <= j' < |xs| && Ranked(xs, xs[i'], k) && Ranked(xs, xs[j'], k + 1) && b == (xs[i'] + xs[j']) / 2.0;
    RankedUnique(xs, xs[i], xs[i'], k);
    RankedUnique(xs, xs[j], xs[j'], k + 1);
  }

  /** `IsMedian` pins the value down: a list has exactly one median. */
  lemma MedianUnique(xs: seq<real>, a: real, b: real)
    requires IsMedian(xs, a) && IsMedian(xs, b)
    ensures a == b
  {
    if |xs| % 2 == 1 {
      RankedUnique(xs, a, b, (|xs| + 1) / 2);
    } else {
      MeanOfRanksUnique(xs, |xs| / 2, a, b);
    }
  }

  /** `np.median` of a non-empty list. */
  function Median(xs: seq<real>): (r: real)
    requires |xs| > 0
    ensures IsMedian(xs, r)
  {
    MiddleCounts(xs);
    MiddleExtremes(xs);
    if |xs| % 2 == 1 then
      MiddleRanksOdd(xs);
      MiddleOfSorted(Sort(xs))
    else
      MiddleRanksEven(xs);
      MiddleOfSorted(Sort(xs))
  }

  /** At least half of xs (rounded up) lies on each side of the sorted middle. */
  lemma MiddleCounts(xs: seq<real>)
    requires |xs| > 0
    ensures CountAtMost(xs, MiddleOfSorted(Sort(xs))) >= (|xs| + 1) / 2
    ensures CountAtLeast(xs, MiddleOfSorted(Sort(xs))) >= (|xs| + 1) / 2
  {
    var s := Sort(xs);
    MedianBounds(xs, s);
    SortCounts(xs, MiddleOfSorted(s));
  }

  /** The sorted middle lies between the smallest and the largest value of xs. */
  lemma MiddleExtremes(xs: seq<real>)
    requires |xs| > 0
    ensures exists lo :: 0 <= lo < |xs| && xs[lo] <= MiddleOfSorted(Sort(xs)) && forall k :: 0 <= k < |xs| ==> xs[lo] <= xs[k]
    ensures exists hi :: 0 <= hi < |xs| && MiddleOfSorted(Sort(xs)) <= xs[hi] && forall k :: 0 <= k < |xs| ==> xs[k] <= xs[hi]
  {
    var s := Sort(xs);
    MedianBounds(xs, s);
    var m := MiddleOfSorted(s);
  }

  /** A value of the sorted permutation, with its rank there, occurs in xs with the same rank. */
  lemma OccursRanked(xs: seq<real>, p: int, k: int) returns (i: int)
    requires 0 <= p < |Sort(xs)| && Ranked(Sort(xs), Sort(xs)[p], k)
    ensures 0 <= i < |xs| && xs[i] == Sort(xs)[p] && Ranked(xs, xs[i], k)
  {
    var v := Sort(xs)[p];
    SortKeepsRank(xs, v, k);
    assert v in multiset(Sort(xs));
    assert v in multiset(xs);
    i :| 0 <= i < |xs| && xs[i] == v;
  }

  /** For an odd count, the sorted middle value occurs in xs with the middle rank. */
  lemma MiddleRanksOdd(xs: seq<real>)
    requires |xs| % 2 == 1
    ensures Ranked(xs, MiddleOfSorted(Sort(xs)), (|xs| + 1) / 2)
    ensures exists i :: 0 <= i < |xs| && xs[i] == MiddleOfSorted(Sort(xs))
  {
    var s := Sort(xs);
    var n := |s|;
    assert MiddleOfSorted(s) == s[n / 2] && Ranked(s, s[n / 2], (n + 1) / 2);
    var i := OccursRanked(xs, n / 2, (n + 1) / 2);
  }

  /** For an even count, the two sorted middle values occur in xs with ranks k and k + 1. */
  lemma MiddleRanksEven(xs: seq<real>)
    requires |xs| > 0 && |xs| % 2 == 0
    ensures exists i, j :: (0 <= i < |xs| && 0 <= j < |xs| &&
      Ranked(xs, xs[i], |xs| / 2) && Ranked(xs, xs[j], |xs| / 2 + 1) && MiddleOfSorted(Sort(xs)) == (xs[i] + xs[j]) / 2.0)
  {
    var s := Sort(xs);
    var n := |s|;
    var m := MiddleOfSorted(s);
    assert Ranked(s, s[n / 2 - 1], n / 2) && Ranked(s, s[n / 2], n / 2 + 1);
    assert m == (s[n / 2 - 1] + s[n / 2]) / 2.0;
    var i := OccursRanked(xs, n / 2 - 1, n / 2);
    var j := OccursRanked(xs, n / 2, n / 2 + 1);
    assert MiddleOfSorted(Sort(xs)) == (xs[i] + xs[j]) / 2.0;
  }

  /** The extremes of a sorted permutation of xs are the extremes of xs. */
  lemma MedianBounds(xs: seq<real>, s: seq<real>)
    requires |xs| > 0 && Sorted(s) && multiset(s) == multiset(xs)
    ensures |s| == |xs|
    ensures exists lo :: 0 <= lo < |xs| && xs[lo] == s[0] && forall k :: 0 <= k < |xs| ==> xs[lo] <= xs[k]
    ensures exists hi :: 0 <= hi < |xs| && xs[hi] == s[|s| - 1] && forall k :: 0 <= k < |xs| ==> xs[k] <= xs[hi]
  {
    assert |s| == |multiset(s)| == |multiset(xs)| == |xs|;
    assert s[0] in multiset(xs);
    assert s[|s| - 1] in multiset(xs);
    var lo :| 0 <= lo < |xs| && xs[lo] == s[0];
    var hi :| 0 <= hi < |xs| && xs[hi] == s[|s| - 1];
    forall k | 0 <= k < |xs| ensures s[0] <= xs[k] <= s[|s| - 1] {
      assert xs[k] in multiset(xs);
      SortedBounds(s, xs[k]);
    }
  }

  /** The median does not depend on the order of the values. */
  lemma MedianOfPermutation(xs: seq<real>, ys: seq<real>)
    requires |xs| > 0
    requires multiset(xs) == multiset(ys)
    ensures |ys| > 0
    ensures Median(xs) == Median(ys)
  {
    assert |xs| == |multiset(xs)| == |multiset(ys)| == |ys|;
    SortedUnique(Sort(xs), Sort(ys));
  }
}
