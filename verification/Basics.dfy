/** Alignment of timestamps to a time frame, and small facts about integers and collections. */
module Basics {

  function Min(a: int, b: int): int { if a < b then a else b }

  function Max(a: int, b: int): int { if a < b then b else a }

  /** Floor of `t` to a multiple of the time frame. */
  function AlignDown(t: int, tf: int): (r: int)
    requires tf > 0
    ensures r <= t < r + tf && r % tf == 0
  {
    MultipleMod(t / tf, tf);
    tf * (t / tf)
  }

  lemma MulBounds(tf: int, k: int)
    requires tf > 0
    ensures k >= 1 ==> tf * k >= tf
    ensures k <= -1 ==> tf * k <= -tf
  {
  }

  lemma MultipleMod(n: int, tf: int)
    requires tf > 0
    ensures (tf * n) % tf == 0
  {
    var q, r := (tf * n) / tf, (tf * n) % tf;
    assert tf * n == tf * q + r;
    assert r == tf * (n - q);
    MulBounds(tf, n - q);
  }

  /** Two multiples of `tf` that are less than `tf` apart are equal. */
  lemma SameMultiple(a: int, b: int, tf: int)
    requires tf > 0 && a % tf == 0 && b % tf == 0 && -tf < a - b < tf
    ensures a == b
  {
    var m, n := a / tf, b / tf;
    assert a == tf * m && b == tf * n;
    assert a - b == tf * (m - n);
    MulBounds(tf, m - n);
  }

  /** A multiple of `tf` shifted by whole frames is a multiple of `tf`. */
  lemma ShiftMultiple(a: int, k: int, tf: int)
    requires tf > 0 && a % tf == 0
    ensures (a + tf * k) % tf == 0
  {
    var n := a / tf;
    assert a == tf * n;
    assert a + tf * k == tf * (n + k);
    MultipleMod(n + k, tf);
  }

  lemma ConcatAssoc<T>(a: seq<T>, b: seq<T>, c: seq<T>)
    ensures a + (b + c) == (a + b) + c
  {
  }

  /** Some element of a set that is not empty. */
  lemma Element<T>(s: set<T>) returns (x: T)
    requires s != {}
    ensures x in s
  {
    x :| x in s;
  }

  lemma SameFactor(p: real, q: real, a: real)
    requires a > 0.0 && p * a == q * a
    ensures p == q
  {
    assert (p - q) * a == 0.0;
  }

  lemma ProductPositive(a: real, b: real, p: real)
    requires a > 0.0 && b > 0.0 && p == a * b
    ensures p > 0.0
  {
  }

  lemma ProperShare(amount: real, rate: real, part: real)
    requires amount > 0.0 && 0.0 < rate < 1.0 && part == amount * rate
    ensures 0.0 < part < amount
  {
    var left := 1.0 - rate;
    var rest := amount * left;
    ProductPositive(amount, rate, part);
    ProductPositive(amount, left, rest);
    assert rest == amount - part;
  }

  function SumReals(xs: seq<real>): real {
    if |xs| == 0 then 0.0 else SumReals(xs[..|xs| - 1]) + xs[|xs| - 1]
  }

  lemma SumAppend(xs: seq<real>, x: real)
    ensures SumReals(xs + [x]) == SumReals(xs) + x
  {
    assert (xs + [x])[..|xs|] == xs;
  }
}
