/** Multiples and quotients. */
module Arithmetic {

  lemma MulMonotonic(a: nat, b: nat, size: nat)
    requires a <= b
    ensures a * size <= b * size
  {
    assert b * size - a * size == (b - a) * size;
  }

  lemma WholeParts(len: nat, size: nat)
    requires size > 0
    ensures len / size * size <= len < len / size * size + size
  {
  }

  /** A quotient is the one number of whole parts that fit. */
  lemma QuotientIs(len: nat, size: nat, q: nat)
    requires size > 0 && q * size <= len < q * size + size
    ensures len / size == q
  {
    WholeParts(len, size);
    var d := len / size;
    if d < q {
      MulMonotonic(d + 1, q, size);
    } else if q < d {
      MulMonotonic(q + 1, d, size);
    }
  }

  lemma Distribute(m: int, n: int)
    ensures (m + 1) * n == m * n + n
  {
  }

  lemma LargeMultiple(d: int, m: int)
    requires m > 0 && d != 0
    ensures d * m >= m || d * m <= -m
  {
    if d > 0 {
      MulMonotonic(1, d, m);
    } else {
      MulMonotonic(1, -d, m);
      assert -d * m == -(d * m);
    }
  }

  /** Remainders do not see multiples. */
  lemma ModShift(a: int, k: int, m: int)
    requires m > 0
    ensures (a + k * m) % m == a % m
  {
    var b := a + k * m;
    var d := b / m - a / m - k;
    assert b == b / m * m + b % m && a == a / m * m + a % m;
    assert d * m == b / m * m - a / m * m - k * m;
    if d != 0 {
      LargeMultiple(d, m);
    }
  }
}
