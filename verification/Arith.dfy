/** The few facts about products, quotients and powers of two that prefixes need. */
module Arith {
  function Pow2(k: nat): (p: nat)
    ensures p >= 1
  {
    if k == 0 then 1 else 2 * Pow2(k - 1)
  }

  lemma {:induction false} PowAdd(j: nat, k: nat)
    ensures Pow2(j + k) == Pow2(j) * Pow2(k)
  {
    if j > 0 {
      PowAdd(j - 1, k);
      MulAssoc(2, Pow2(j - 1), Pow2(k));
    }
  }

  lemma PowSmall()
    ensures Pow2(0) == 1 && Pow2(1) == 2 && Pow2(2) == 4 && Pow2(8) == 256
  {
  }

  lemma PowWord()
    ensures Pow2(32) == 0x1_0000_0000
  {
    PowSmall();
    PowAdd(8, 8);
    PowAdd(16, 16);
  }

  lemma MulAssoc(x: int, y: int, z: int)
    ensures (x * y) * z == x * (y * z)
  {
  }

  lemma MulSign(d: nat, k: int)
    requires d >= 1
    ensures k >= 1 ==> d * k >= d
    ensures k <= -1 ==> d * k <= 0 - d
  {
  }

  lemma DivModUnique(a: int, d: nat, q: int, r: nat)
    requires d >= 1 && a == d * q + r && r < d
    ensures a / d == q && a % d == r
  {
    var q', r' := a / d, a % d;
    assert d * (q' - q) == d * q' - d * q;
    MulSign(d, q' - q);
  }

  lemma RemainderBounds(a: nat, d: nat)
    requires d >= 1
    ensures 0 <= a % d <= a
  {
  }

  /** Multiples of d leave a gap of at least d. */
  lemma MultipleGap(q: int, n: int, d: nat)
    requires d >= 1 && q * d < n * d
    ensures q * d + d <= n * d
  {
    assert d * (n - q) == n * d - q * d;
    MulSign(d, n - q);
  }

  lemma ExactMultiple(a: int, d: nat)
    requires d >= 1 && a % d == 0
    ensures a == (a / d) * d
  {
  }

  lemma RoundedDown(a: int, d: nat)
    requires d >= 1
    ensures (a - a % d) % d == 0
    ensures a - a % d <= a < a - a % d + d
  {
    DivModUnique(a - a % d, d, a / d, 0);
  }

  lemma RegroupMultiple(p: int, r: nat, k: nat, d: nat)
    requires r < k
    ensures (k * p + r) * d == (k * d) * p + r * d
    ensures 0 <= r * d <= k * d - d
  {
    assert (k * p + r) * d == (k * p) * d + r * d;
    MulAssoc(k, p, d);
    MulAssoc(k, d, p);
    assert (k - r - 1) * d == k * d - r * d - d;
  }

  /** Rounding down to a multiple of d first does not change rounding down to a multiple of k*d. */
  lemma RoundTwice(a: int, k: nat, d: nat)
    requires k >= 1 && d >= 1 && k * d >= 1
    ensures (a - a % d) - (a - a % d) % (k * d) == a - a % (k * d)
  {
    RoundTwiceParts(a, k, d, a / d / k, a / d % k, a % d);
  }

  lemma RoundTwiceParts(a: int, k: nat, d: nat, p: int, r: nat, low: nat)
    requires r < k && low < d && a == d * (k * p + r) + low
    ensures d >= 1 && k * d >= 1 && a - a % d == (k * d) * p + r * d
    ensures (a - a % d) - (a - a % d) % (k * d) == a - a % (k * d)
  {
    RegroupMultiple(p, r, k, d);
    DivModUnique(a, d, k * p + r, low);
    DivModUnique(a - low, k * d, p, r * d);
    DivModUnique(a, k * d, p, r * d + low);
  }
}
