/** Sequence helpers shared by the median and the baseline aggregation. */
module SeqUtil {

  /** Concatenation of `f` applied to each element, in order. */
  function FlatMap<T, U>(xs: seq<T>, f: T -> seq<U>): seq<U>
    decreases |xs|
  {
    if |xs| == 0 then [] else f(xs[0]) + FlatMap(xs[1..], f)
  }

  lemma {:induction false} FlatMapConcat<T, U>(a: seq<T>, b: seq<T>, f: T -> seq<U>)
    ensures FlatMap(a + b, f) == FlatMap(a, f) + FlatMap(b, f)
    decreases |a|
  {
    if |a| == 0 {
      assert a + b == b;
    } else {
      assert (a + b)[0] == a[0];
      assert (a + b)[1..] == a[1..] + b;
      FlatMapConcat(a[1..], b, f);
    }
  }

  /** Reordering the input only reorders the output. */
  lemma {:induction false} FlatMapPermutation<T, U>(a: seq<T>, b: seq<T>, f: T -> seq<U>)
    requires multiset(a) == multiset(b)
    ensures multiset(FlatMap(a, f)) == multiset(FlatMap(b, f))
    decreases |a|
  {
    if |a| == 0 {
      assert |b| == |multiset(b)| == 0;
    } else {
      var x := a[0];
      assert x in multiset(b);
      var k :| 0 <= k < |b| && b[k] == x;
      var pre, post := b[..k], b[k + 1..];
      var b' := pre + post;
      assert b == pre + ([x] + post);
      assert a == [x] + a[1..];
      assert multiset(a[1..]) == multiset(b') by {
        assert multiset(a) == multiset{x} + multiset(a[1..]);
        assert multiset(b) == multiset(pre) + multiset([x] + post);
        assert multiset([x] + post) == multiset{x} + multiset(post);
        assert multiset(b') == multiset(pre) + multiset(post);
        assert multiset(b) == multiset(b') + multiset{x};
        assert multiset(a[1..]) == multiset(a) - multiset{x};
        assert multiset(b') == multiset(b) - multiset{x};
      }
      FlatMapPermutation(a[1..], b', f);
      FlatMapConcat(pre, [x] + post, f);
      FlatMapConcat([x], post, f);
      FlatMapConcat(pre, post, f);
      assert FlatMap([x], f) == f(x) by {
        assert [x][1..] == [];
      }
      assert FlatMap(b, f) == FlatMap(pre, f) + (f(x) + FlatMap(post, f));
      assert FlatMap(b', f) == FlatMap(pre, f) + FlatMap(post, f);
      assert FlatMap(a, f) == f(x) + FlatMap(a[1..], f);
    }
  }

  /** Mapping a function over a sequence whose every image is a singleton keeps its length. */
  lemma {:induction false} FlatMapKeepsAll<T, U>(xs: seq<T>, f: T -> seq<U>)
    requires forall i :: 0 <= i < |xs| ==> |f(xs[i])| == 1
    ensures |FlatMap(xs, f)| == |xs|
    decreases |xs|
  {
    if |xs| > 0 {
      FlatMapKeepsAll(xs[1..], f);
    }
  }

  /** The output is non-empty exactly when some element has a non-empty image. */
  lemma {:induction false} FlatMapNonEmpty<T, U>(xs: seq<T>, f: T -> seq<U>)
    ensures |FlatMap(xs, f)| > 0 <==> exists i :: 0 <= i < |xs| && |f(xs[i])| > 0
    decreases |xs|
  {
    if |xs| > 0 {
      FlatMapNonEmpty(xs[1..], f);
      if |f(xs[0])| == 0 && |FlatMap(xs, f)| > 0 {
        var i :| 0 <= i < |xs[1..]| && |f(xs[1..][i])| > 0;
        assert |f(xs[i + 1])| > 0;
      }
      if |f(xs[0])| == 0 && (exists i :: 0 <= i < |xs| && |f(xs[i])| > 0) {
        var i :| 0 <= i < |xs| && |f(xs[i])| > 0;
        assert i > 0 && xs[1..][i - 1] == xs[i];
      }
    }
  }
}
