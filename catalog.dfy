/** The array operations the catalog pages use: `Array.prototype.filter`
    with a boolean predicate and `Array.prototype.slice`, together with the
    facts every page relies on. */
module Catalog {

  /** `xs.filter(p)`: the elements satisfying `p`, in their original order. */
  function Filter<T(!new)>(xs: seq<T>, p: T -> bool): (r: seq<T>)
    ensures |r| <= |xs|
    ensures forall x :: x in r <==> x in xs && p(x)
  {
    if xs == [] then []
    else (if p(xs[0]) then [xs[0]] else []) + Filter(xs[1..], p)
  }

  /** `a` is `b` with zero or more elements removed and nothing reordered. */
  predicate IsSubsequence<T(==)>(a: seq<T>, b: seq<T>)
    decreases |b|
  {
    if b == [] then a == []
    else (a != [] && a[0] == b[0] && IsSubsequence(a[1..], b[1..])) || IsSubsequence(a, b[1..])
  }

  /** The filtered list is an order-preserving subsequence of the input. */
  lemma {:induction false} FilterIsSubsequence<T(!new)>(xs: seq<T>, p: T -> bool)
    ensures IsSubsequence(Filter(xs, p), xs)
  {
    if xs != [] {
      FilterIsSubsequence(xs[1..], p);
      var r := Filter(xs, p);
      if p(xs[0]) {
        assert r[0] == xs[0] && r[1..] == Filter(xs[1..], p);
      } else {
        assert r == Filter(xs[1..], p);
      }
    }
  }

  /** Filtering keeps every copy of a passing element and no copy of a failing one;
      with FilterIsSubsequence this fixes the result completely. */
  lemma {:induction false} FilterCounts<T(!new)>(xs: seq<T>, p: T -> bool)
    ensures forall x :: multiset(Filter(xs, p))[x] == if p(x) then multiset(xs)[x] else 0
  {
    if xs != [] {
      FilterCounts(xs[1..], p);
      assert xs == [xs[0]] + xs[1..];
      assert multiset(xs) == multiset([xs[0]]) + multiset(xs[1..]);
      var head := if p(xs[0]) then [xs[0]] else [];
      assert Filter(xs, p) == head + Filter(xs[1..], p);
      assert multiset(Filter(xs, p)) == multiset(head) + multiset(Filter(xs[1..], p));
    }
  }

  /** When every element passes, filtering returns the input unchanged. */
  lemma {:induction false} FilterAllPass<T(!new)>(xs: seq<T>, p: T -> bool)
    requires forall x :: x in xs ==> p(x)
    ensures Filter(xs, p) == xs
  {
    if xs != [] {
      assert xs[0] in xs;
      FilterAllPass(xs[1..], p);
      assert [xs[0]] + xs[1..] == xs;
    }
  }

  /** Filtering is idempotent. */
  lemma FilterIdempotent<T(!new)>(xs: seq<T>, p: T -> bool)
    ensures Filter(Filter(xs, p), p) == Filter(xs, p)
  {
    FilterAllPass(Filter(xs, p), p);
  }

  /** Two predicates that agree on every element select the same list. */
  lemma {:induction false} FilterCongruent<T(!new)>(xs: seq<T>, p: T -> bool, q: T -> bool)
    requires forall x :: x in xs ==> p(x) == q(x)
    ensures Filter(xs, p) == Filter(xs, q)
  {
    if xs != [] {
      assert xs[0] in xs;
      FilterCongruent(xs[1..], p, q);
    }
  }

  /** The result is empty exactly when no element passes. */
  lemma FilterEmptyIff<T(!new)>(xs: seq<T>, p: T -> bool)
    ensures Filter(xs, p) == [] <==> forall x :: x in xs ==> !p(x)
  {
    if Filter(xs, p) != [] {
      assert Filter(xs, p)[0] in Filter(xs, p);
    }
  }

  /** When exactly the element at position `k` passes, the result is that element alone. */
  lemma {:induction false} FilterExactlyOne<T(!new)>(xs: seq<T>, p: T -> bool, k: nat)
    requires k < |xs| && p(xs[k])
    requires forall j :: 0 <= j < |xs| && j != k ==> !p(xs[j])
    ensures Filter(xs, p) == [xs[k]]
  {
    if k == 0 {
      FilterNonePass(xs[1..], p);
    } else {
      assert !p(xs[0]);
      FilterExactlyOne(xs[1..], p, k - 1);
    }
  }

  /** When no position passes, the result is empty. */
  lemma {:induction false} FilterNonePass<T(!new)>(xs: seq<T>, p: T -> bool)
    requires forall j :: 0 <= j < |xs| ==> !p(xs[j])
    ensures Filter(xs, p) == []
  {
    if xs != [] {
      assert !p(xs[0]);
      FilterNonePass(xs[1..], p);
    }
  }

  /** When only the first element fails, the result is the rest of the list. */
  lemma FilterDropsHead<T(!new)>(xs: seq<T>, p: T -> bool)
    requires |xs| > 0 && !p(xs[0])
    requires forall j :: 1 <= j < |xs| ==> p(xs[j])
    ensures Filter(xs, p) == xs[1..]
  {
    forall x | x in xs[1..] ensures p(x) {
      var j :| 0 <= j < |xs| - 1 && xs[1..][j] == x;
      assert xs[j + 1] == x;
    }
    FilterAllPass(xs[1..], p);
  }

  /** `xs.slice(start, end)` for non-negative arguments: both ends are clamped to the length. */
  function Slice<T>(xs: seq<T>, start: nat, end: nat): (r: seq<T>)
    ensures |r| == if end <= start || |xs| <= start then 0
                   else (if end <= |xs| then end else |xs|) - start
    ensures forall i :: 0 <= i < |r| ==> r[i] == xs[start + i]
  {
    var e := if end <= |xs| then end else |xs|;
    if e <= start then [] else xs[start..e]
  }

  /** `xs.slice(start)`: everything from `start` on, or nothing when `start` is past the end. */
  function SliceFrom<T>(xs: seq<T>, start: nat): (r: seq<T>)
    ensures |r| == if |xs| <= start then 0 else |xs| - start
    ensures forall i :: 0 <= i < |r| ==> r[i] == xs[start + i]
  {
    Slice(xs, start, |xs|)
  }
}
