/** Facts about division by a positive number that the solver needs spelled out. */
module Arithmetic {
  /** Stepping from `y - 1` to `y` gains one multiple of `k` exactly at a multiple. */
  lemma QuotientStep(y: nat, k: nat)
    requires y >= 1 && k >= 1
    ensures y / k == (y - 1) / k + (if y % k == 0 then 1 else 0)
  {
    var q, r := (y - 1) / k, (y - 1) % k;
    assert y - 1 == k * q + r;
    if r == k - 1 {
      assert y == k * (q + 1) + 0;
      DivisionIsUnique(y, k, q + 1, 0);
    } else {
      assert y == k * q + (r + 1);
      DivisionIsUnique(y, k, q, r + 1);
    }
  }

  lemma QuotientIsUnique(k: int, q: int, r: int, q': int, r': int)
    requires k >= 1 && 0 <= r < k && 0 <= r' < k && k * q + r == k * q' + r'
    ensures q == q' && r == r'
  {
    var d := q - q';
    assert k * d == r' - r by { assert k * d == k * q - k * q'; }
    assert d >= 1 ==> k * d >= k;
    assert d <= -1 ==> k * d <= -k;
  }

  lemma DivisionIsUnique(n: int, k: int, q: int, r: int)
    requires k >= 1 && 0 <= r < k && n == k * q + r
    ensures n / k == q && n % k == r
  {
    QuotientIsUnique(k, q, r, n / k, n % k);
  }

  lemma MulStep(i: int, d: int)
    ensures (i + 1) * d == i * d + d
  {
  }

  lemma MulMonotone(i: int, j: int, d: int)
    requires i <= j && d >= 0
    ensures i * d <= j * d
  {
    assert (j - i) * d >= 0;
    assert j * d == i * d + (j - i) * d;
  }

  /** The multiples of `d` below `t` are those up to `(t - 1) div d`. */
  lemma MultiplesBelow(t: int, d: int, n: int)
    requires d > 0
    ensures n * d < t <==> n <= (t - 1) / d
  {
    var q, r := (t - 1) / d, (t - 1) % d;
    assert t - 1 == q * d + r;
    if n <= q {
      MulMonotone(n, q, d);
    } else {
      MulMonotone(q + 1, n, d);
      MulStep(q, d);
    }
  }

  /** Adding a multiple of `d` does not change divisibility by `d`. */
  lemma DivisibleShift(e: int, d: int, n: int)
    requires d > 0 && e % d == 0
    ensures (e + n * d) % d == 0
  {
    var q := e / d;
    assert e == d * q + 0;
    assert d * (q + n) == d * q + n * d;
    DivisionIsUnique(e + n * d, d, q + n, 0);
  }
}
