/** A wrapping index over N items, as used by the carousel, the testimonial
    rotator and the loader's status line, and the pagination dots under a
    rotating strip. */
module Cycle {

  /** `(i + 1) % n`: the next item, wrapping from the last to the first. */
  function Succ(i: nat, n: nat): (r: nat)
    requires i < n
    ensures r < n
    ensures r == if i + 1 == n then 0 else i + 1
  {
    (i + 1) % n
  }

  /** `(i - 1 + n) % n`: the previous item, wrapping from the first to the last. */
  function Pred(i: nat, n: nat): (r: nat)
    requires i < n
    ensures r < n
    ensures r == if i == 0 then n - 1 else i - 1
  {
    (i - 1 + n) % n
  }

  /** The index after `k` successive steps forward. */
  function Advance(i: nat, n: nat, k: nat): (r: nat)
    requires i < n
    ensures r < n
  {
    if k == 0 then i else Succ(Advance(i, n, k - 1), n)
  }

  /** `k` steps forward land on `(i + k) mod n`. */
  lemma {:induction false} AdvanceIsMod(i: nat, n: nat, k: nat)
    requires i < n
    ensures Advance(i, n, k) == (i + k) % n
  {
    if k > 0 {
      AdvanceIsMod(i, n, k - 1);
      ModSucc(i + k - 1, n);
    }
  }

  lemma ModSucc(m: nat, n: nat)
    requires n > 0
    ensures Succ(m % n, n) == (m + 1) % n
  {
    var q, r := m / n, m % n;
    assert m == q * n + r;
    if r + 1 < n {
      ModOf(m + 1, n, q, r + 1);
    } else {
      assert m + 1 == (q + 1) * n;
      ModOf(m + 1, n, q + 1, 0);
    }
  }

  /** The remainder is unique: `a = q*n + s` with `0 <= s < n` gives `a % n == s`. */
  lemma ModOf(a: int, n: nat, q: int, s: int)
    requires n > 0 && 0 <= s < n && a == q * n + s
    ensures a % n == s
  {
    var q', s' := a / n, a % n;
    assert a == q' * n + s';
    var d := q - q';
    assert d * n == s' - s by {
      assert q * n - q' * n == (q - q') * n;
    }
    if d >= 1 {
      MulAtLeast(q - q', n);
    } else if d <= -1 {
      MulAtLeast(q' - q, n);
    }
  }

  lemma MulAtLeast(d: int, n: nat)
    requires d >= 1
    ensures d * n >= n
  {
    assert d * n == (d - 1) * n + n;
  }

  /** `n` steps forward return to the starting item. */
  lemma FullTurn(i: nat, n: nat)
    requires i < n
    ensures Advance(i, n, n) == i
  {
    AdvanceIsMod(i, n, n);
    ModOf(i + n, n, 1, i);
  }

  /** Stepping back undoes stepping forward, and the other way round. */
  lemma PredSuccInverse(i: nat, n: nat)
    requires i < n
    ensures Pred(Succ(i, n), n) == i
    ensures Succ(Pred(i, n), n) == i
  {
  }

  /** The pagination dots: dot `k` is active exactly when `k` is the current item. */
  function Dots(current: nat, n: nat): (r: seq<bool>)
    requires current < n
    ensures |r| == n
    ensures forall k :: 0 <= k < n ==> (r[k] <==> k == current)
  {
    seq(n, k => k == current)
  }

  /** How many dots are active. */
  function CountActive(s: seq<bool>): nat {
    if s == [] then 0 else (if s[0] then 1 else 0) + CountActive(s[1..])
  }

  lemma {:induction false} CountNone(s: seq<bool>)
    requires forall k :: 0 <= k < |s| ==> !s[k]
    ensures CountActive(s) == 0
  {
    if s != [] {
      CountNone(s[1..]);
    }
  }

  lemma {:induction false} CountOne(s: seq<bool>, k: nat)
    requires k < |s| && s[k]
    requires forall j :: 0 <= j < |s| && j != k ==> !s[j]
    ensures CountActive(s) == 1
  {
    if k == 0 {
      CountNone(s[1..]);
    } else {
      assert !s[0];
      CountOne(s[1..], k - 1);
    }
  }

  /** Exactly one dot is active. */
  lemma ExactlyOneDot(current: nat, n: nat)
    requires current < n
    ensures CountActive(Dots(current, n)) == 1
  {
    CountOne(Dots(current, n), current);
  }

  /** `translateX(-{current * 100}%)`: the strip is shifted by whole slide widths,
      and the shift determines the current item. */
  function Offset(current: nat): (r: nat)
    ensures r % 100 == 0 && r / 100 == current
  {
    current * 100
  }
}
