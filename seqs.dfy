/**
 * The two array methods the source uses on lists of wallets and accounts:
 * `find` (the first element satisfying a test, in order) and `filter`
 * (the elements satisfying a test, in their original order).
 */
module Seqs {
  import opened Wrappers

  /** `xs.find(p)`: the first element of `xs` that satisfies `p`, if any. */
  function Find<T>(xs: seq<T>, p: T -> bool): (r: Option<T>)
    ensures r.Some? ==> r.value in xs && p(r.value)
    ensures r.None? <==> forall x :: x in xs ==> !p(x)
  {
    if xs == [] then None
    else if p(xs[0]) then Some(xs[0])
    else Find(xs[1..], p)
  }

  /** `j` is the position of the first element of `xs` that satisfies `p`. */
  ghost predicate FirstIndex<T>(xs: seq<T>, p: T -> bool, j: int)
  {
    0 <= j < |xs| && p(xs[j]) && forall k :: 0 <= k < j ==> !p(xs[k])
  }

  /** What `Find` returns is the element at the first position that satisfies `p`. */
  lemma {:induction false} FindIsFirst<T>(xs: seq<T>, p: T -> bool)
    ensures Find(xs, p).Some? ==> exists j :: FirstIndex(xs, p, j) && Find(xs, p).value == xs[j]
  {
    if xs != [] && !p(xs[0]) && Find(xs, p).Some? {
      FindIsFirst(xs[1..], p);
      var j :| FirstIndex(xs[1..], p, j) && Find(xs[1..], p).value == xs[1..][j];
      assert FirstIndex(xs, p, j + 1);
    } else if xs != [] && p(xs[0]) {
      assert FirstIndex(xs, p, 0);
    }
  }

  /** Two tests that agree on every element find the same element. */
  lemma {:induction false} FindAgrees<T>(xs: seq<T>, p: T -> bool, q: T -> bool)
    requires forall x :: x in xs ==> p(x) == q(x)
    ensures Find(xs, p) == Find(xs, q)
  {
    if xs != [] {
      FindAgrees(xs[1..], p, q);
    }
  }

  /** `xs.filter(p)`: the elements of `xs` that satisfy `p`, in their original order. */
  function Filter<T>(xs: seq<T>, p: T -> bool): (r: seq<T>)
    ensures |r| <= |xs|
    ensures forall x :: x in r ==> x in xs && p(x)
    ensures forall x :: x in xs && p(x) ==> x in r
  {
    if xs == [] then []
    else if p(xs[0]) then [xs[0]] + Filter(xs[1..], p)
    else Filter(xs[1..], p)
  }

  /** Filtering keeps the order: it distributes over concatenation. */
  lemma {:induction false} FilterConcat<T>(a: seq<T>, b: seq<T>, p: T -> bool)
    ensures Filter(a + b, p) == Filter(a, p) + Filter(b, p)
  {
    if a == [] {
      assert a + b == b;
    } else {
      assert (a + b)[1..] == a[1..] + b;
      FilterConcat(a[1..], b, p);
    }
  }

  /** Filtering by a test and by its negation splits `xs` into two parts that together hold every element exactly once. */
  lemma {:induction false} FilterComplement<T>(xs: seq<T>, p: T -> bool, q: T -> bool)
    requires forall x :: q(x) == !p(x)
    ensures |Filter(xs, p)| + |Filter(xs, q)| == |xs|
    ensures multiset(Filter(xs, p)) + multiset(Filter(xs, q)) == multiset(xs)
  {
    if xs != [] {
      FilterComplement(xs[1..], p, q);
      assert xs == [xs[0]] + xs[1..];
    }
  }
}
