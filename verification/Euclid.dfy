/** Two facts about the Euclidean remainder by a variable divisor, which the cyclic focus needs. */
module Euclid {

  lemma {:induction false} MulAtLeast(n: nat, k: nat)
    requires k >= 1
    ensures n * k >= n
  {
  }

  lemma RemainderIsUnique(x: int, n: nat, q: int, r: int)
    requires 0 <= r < n && x == n * q + r
    ensures x % n == r
  {
    var p, s := x / n, x % n;
    assert x == n * p + s && 0 <= s < n;
    assert n * (q - p) == n * q - n * p && n * (p - q) == n * p - n * q;
    if q > p {
      MulAtLeast(n, q - p);
    } else if p > q {
      MulAtLeast(n, p - q);
    }
  }

  /** Adding the divisor does not change the remainder. */
  lemma RemainderOfSum(x: int, n: nat)
    requires n > 0
    ensures (x + n) % n == x % n
  {
    var q, r := x / n, x % n;
    assert n * (q + 1) == n * q + n;
    RemainderIsUnique(x + n, n, q + 1, r);
  }

  /** Shifting by d and back by d comes home. */
  lemma ShiftAndBack(a: nat, d: int, n: nat)
    requires a < n
    ensures ((a + d) % n - d) % n == a
  {
    var q, r := (a + d) / n, (a + d) % n;
    assert a + d == n * q + r;
    assert r - d == n * (-q) + a;
    RemainderIsUnique(r - d, n, -q, a);
  }

  /** A percentage of a length is at most the length. */
  lemma PercentFits(width: nat, percent: nat)
    requires percent <= 100
    ensures 0 <= width * percent / 100 <= width
  {
  }

  /** n equal shares of a length fit into it. */
  lemma SharesFit(height: nat, n: nat)
    requires n > 0
    ensures n * (height / n) <= height
  {
  }

  /** A percentage below a hundred leaves part of a positive length. */
  lemma PercentLeavesRest(width: nat, percent: nat)
    requires percent < 100 && width > 0
    ensures width * percent / 100 < width
  {
  }
}
