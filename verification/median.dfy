/**
 * The median of a list of coordinates: the middle element of the sorted list
 * for an odd length, the mean of the two middle elements for an even length,
 * and no value for an empty list.
 */
module Statistics {
  import opened Wrappers
  import opened SeqUtil

  predicate Sorted(s: seq<real>)
  {
    forall i, j :: 0 <= i < j < |s| ==> s[i] <= s[j]
  }

  /** Insert `x` into the sorted list `s`. */
  function Insert(x: real, s: seq<real>): (r: seq<real>)
    requires Sorted(s)
    ensures Sorted(r)
    ensures multiset(r) == multiset(s) + multiset{x}
    ensures r[0] == x || (|s| > 0 && r[0] == s[0])
    decreases |s|
  {
    if |s| == 0 then [x]
    else if x <= s[0] then [x] + s
    else
      assert s == [s[0]] + s[1..];
      [s[0]] + Insert(x, s[1..])
  }

  /** The list in ascending order. */
  function Sort(xs: seq<real>): (r: seq<real>)
    ensures Sorted(r)
    ensures multiset(r) == multiset(xs)
    decreases |xs|
  {
    if |xs| == 0 then []
    else
      assert xs == [xs[0]] + xs[1..];
      Insert(xs[0], Sort(xs[1..]))
  }

  /** A sorted list is determined by its multiset of elements. */
  lemma {:induction false} SortedUnique(a: seq<real>, b: seq<real>)
    requires Sorted(a) && Sorted(b)
    requires multiset(a) == multiset(b)
    ensures a == b
    decreases |a|
  {
    assert |a| == |multiset(a)| == |multiset(b)| == |b|;
    if |a| > 0 {
      assert a[0] in multiset(b);
      assert b[0] in multiset(a);
      assert a[0] == b[0];
      assert a == [a[0]] + a[1..];
      assert b == [b[0]] + b[1..];
      assert multiset(a[1..]) == multiset(a) - multiset{a[0]};
      assert multiset(b[1..]) == multiset(b) - multiset{b[0]};
      SortedUnique(a[1..], b[1..]);
    }
  }

  /** The middle element of a list of odd length, the mean of the two middle elements otherwise. */
  function Middle(sorted: seq<real>): real
    requires |sorted| > 0
  {
    var size := |sorted|;
    if size % 2 == 1 then sorted[size / 2]
    else (sorted[size / 2 - 1] + sorted[size / 2]) / 2.0
  }

  /** The median of a non-empty list: the middle of the list once sorted. */
  function MedianValue(xs: seq<real>): real
    requires |xs| > 0
  {
    assert |Sort(xs)| == |multiset(xs)| == |xs|;
    Middle(Sort(xs))
  }

  /** The median, with an empty list having none. */
  function Median(xs: seq<real>): (m: Option<real>)
    ensures m.None? <==> |xs| == 0
    ensures m.Some? ==> m.value == MedianValue(xs)
  {
    if |xs| == 0 then None else Some(MedianValue(xs))
  }

  /** The median does not depend on the order of the list. */
  lemma MedianPermutationInvariant(xs: seq<real>, ys: seq<real>)
    requires multiset(xs) == multiset(ys)
    ensures Median(xs) == Median(ys)
  {
    assert |xs| == |multiset(xs)| == |multiset(ys)| == |ys|;
    SortedUnique(Sort(xs), Sort(ys));
    if |xs| > 0 {
      assert MedianValue(xs) == Middle(Sort(xs)) == Middle(Sort(ys)) == MedianValue(ys);
    }
  }

  /** The median lies between the least and the greatest element of the list. */
  lemma MedianBetweenExtremes(xs: seq<real>)
    requires |xs| > 0
    ensures exists lo :: lo in xs && lo <= MedianValue(xs)
    ensures exists hi :: hi in xs && MedianValue(xs) <= hi
  {
    var s := Sort(xs);
    var n := |s|;
    assert |s| == |multiset(s)| == |multiset(xs)| == |xs|;
    assert s[0] in multiset(xs) && s[n - 1] in multiset(xs);
    assert s[0] in xs && s[n - 1] in xs;
    assert s[0] <= MedianValue(xs) <= s[n - 1] by {
      if n % 2 == 0 {
        assert s[0] <= s[n / 2 - 1] <= s[n - 1];
      }
      assert s[0] <= s[n / 2] <= s[n - 1];
    }
  }

  function KeepAtMost(m: real): real -> seq<real>
  {
    x => if x <= m then [x] else []
  }

  function KeepAtLeast(m: real): real -> seq<real>
  {
    x => if x >= m then [x] else []
  }

  /** The elements of `xs` that are at most `m`, in order. */
  function AtMost(xs: seq<real>, m: real): seq<real>
  {
    FlatMap(xs, KeepAtMost(m))
  }

  /** The elements of `xs` that are at least `m`, in order. */
  function AtLeast(xs: seq<real>, m: real): seq<real>
  {
    FlatMap(xs, KeepAtLeast(m))
  }

  /** Reordering a list does not change how many of its elements are at most (at least) `m`. */
  lemma CountsPermutationInvariant(xs: seq<real>, ys: seq<real>, m: real)
    requires multiset(xs) == multiset(ys)
    ensures |AtMost(xs, m)| == |AtMost(ys, m)|
    ensures |AtLeast(xs, m)| == |AtLeast(ys, m)|
  {
    FlatMapPermutation(xs, ys, KeepAtMost(m));
    FlatMapPermutation(xs, ys, KeepAtLeast(m));
    assert |AtMost(xs, m)| == |multiset(AtMost(xs, m))| == |multiset(AtMost(ys, m))| == |AtMost(ys, m)|;
    assert |AtLeast(xs, m)| == |multiset(AtLeast(xs, m))| == |multiset(AtLeast(ys, m))| == |AtLeast(ys, m)|;
  }

  /** In a sorted list, everything before index `k` is at most `s[k - 1]`. */
  lemma SortedPrefixAtMost(s: seq<real>, k: nat, m: real)
    requires Sorted(s) && 0 < k <= |s| && s[k - 1] <= m
    ensures |AtMost(s, m)| >= k
  {
    assert s == s[..k] + s[k..];
    FlatMapConcat(s[..k], s[k..], KeepAtMost(m));
    FlatMapKeepsAll(s[..k], KeepAtMost(m));
  }

  /** In a sorted list, everything from index `k` on is at least `s[k]`. */
  lemma SortedSuffixAtLeast(s: seq<real>, k: nat, m: real)
    requires Sorted(s) && 0 <= k < |s| && m <= s[k]
    ensures |AtLeast(s, m)| >= |s| - k
  {
    assert s == s[..k] + s[k..];
    FlatMapConcat(s[..k], s[k..], KeepAtLeast(m));
    FlatMapKeepsAll(s[k..], KeepAtLeast(m));
  }

  /** The middle of a sorted list has at least half of the list on each side. */
  lemma MiddleSplitsSorted(s: seq<real>)
    requires Sorted(s) && |s| > 0
    ensures 2 * |AtMost(s, Middle(s))| >= |s|
    ensures 2 * |AtLeast(s, Middle(s))| >= |s|
  {
    var n, m := |s|, Middle(s);
    if n % 2 == 1 {
      SortedPrefixAtMost(s, n / 2 + 1, m);
      SortedSuffixAtLeast(s, n / 2, m);
    } else {
      SortedPrefixAtMost(s, n / 2, m);
      SortedSuffixAtLeast(s, n / 2, m);
    }
  }

  /**
   * The median splits the list in half: at least half of the elements are at
   * most the median and at least half are at least the median.
   */
  lemma MedianSplitsInHalf(xs: seq<real>)
    requires |xs| > 0
    ensures 2 * |AtMost(xs, MedianValue(xs))| >= |xs|
    ensures 2 * |AtLeast(xs, MedianValue(xs))| >= |xs|
  {
    var s := Sort(xs);
    assert |s| == |multiset(s)| == |multiset(xs)| == |xs|;
    var m := Middle(s);
    assert MedianValue(xs) == m;
    CountsPermutationInvariant(xs, s, m);
    MiddleSplitsSorted(s);
  }
}
