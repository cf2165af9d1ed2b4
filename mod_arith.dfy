// Facts about Euclidean `%` that the cursor arithmetic of the circular
// buffers relies on. Every cursor in the source is `(cursor + 1) % N` with
// N > 0 and a non-negative cursor, where C++ and Dafny agree; where an
// operand can be negative, C++'s truncating `/` and `%` are written out.
module ModArith {

  /** C++'s `a / n` for n > 0: the quotient rounded toward zero. */
  function CDiv(a: int, n: int): (q: int)
    requires n > 0
    ensures a >= 0 ==> q == a / n
    ensures a < 0 ==> q == -((-a) / n)
  {
    if a >= 0 then a / n else -((-a) / n)
  }

  /** C++'s `a % n` for n > 0: it takes the sign of a, so a negative a gives a remainder in (-n, 0]. */
  function CRem(a: int, n: int): (r: int)
    requires n > 0
    ensures a == CDiv(a, n) * n + r
    ensures a >= 0 ==> 0 <= r < n && r == a % n
    ensures a < 0 ==> -n < r <= 0
  {
    if a >= 0 then a % n else -((-a) % n)
  }

  /** The remainder is determined by any decomposition x == n*q + r with 0 <= r < n. */
  lemma ModUnique(x: int, n: int, q: int, r: int)
    requires n > 0 && 0 <= r < n && x == n * q + r
    ensures x % n == r && x / n == q
  {
    var q', r' := x / n, x % n;
    assert x == n * q' + r';
    if q' > q {
      assert n * q' - n * q == n * (q' - q);
      MulAtLeast(n, q' - q);
    } else if q' < q {
      assert n * q - n * q' == n * (q - q');
      MulAtLeast(n, q - q');
    }
  }

  lemma MulAtLeast(n: int, d: int)
    requires n > 0 && d >= 1
    ensures n * d >= n
  {
    assert n * d == n * (d - 1) + n;
    assert n * (d - 1) >= 0;
  }

  /** Adding a multiple of n does not change the remainder. */
  lemma ModAddMultiple(x: int, m: int, n: int)
    requires n > 0
    ensures (x + n * m) % n == x % n
  {
    assert x + n * m == n * (x / n + m) + x % n;
    ModUnique(x + n * m, n, x / n + m, x % n);
  }

  /** Reducing the left operand first does not change the result. */
  lemma ModAddLeft(a: int, b: int, n: int)
    requires n > 0
    ensures (a % n + b) % n == (a + b) % n
  {
    assert a % n + b == (a + b) + n * (-(a / n));
    ModAddMultiple(a + b, -(a / n), n);
  }

  /** Advancing a reduced cursor by one and reducing again advances the unreduced count. */
  lemma ModStep(a: int, n: int)
    requires n > 0
    ensures (a % n + 1) % n == (a + 1) % n
  {
    ModAddLeft(a, 1, n);
  }

  /** The distance from `a` to `(a + k) % n`, reduced mod n, is `k % n`. */
  lemma ModDistance(a: int, k: int, n: int)
    requires n > 0
    ensures ((a + k) % n - a) % n == k % n
  {
    assert (a + k) % n - a == k + n * (-((a + k) / n));
    ModAddMultiple(k, -((a + k) / n), n);
  }

  /** A value already in [0, n) is its own remainder. */
  lemma ModSmall(x: int, n: int)
    requires 0 <= x < n
    ensures x % n == x
  {
    ModUnique(x, n, 0, x);
  }

  /** Stepping back by one from a non-zero remainder decrements it. */
  lemma ModPred(x: int, n: int)
    requires n > 0 && x % n != 0
    ensures (x - 1) % n == x % n - 1
  {
    assert x - 1 == n * (x / n) + (x % n - 1);
    ModUnique(x - 1, n, x / n, x % n - 1);
  }

  /** A value and its remainder differ by a multiple of n. */
  lemma ModSelfDistance(m: int, n: int)
    requires n > 0
    ensures (m % n - m) % n == 0
  {
    assert m % n - m == 0 + n * (-(m / n));
    ModAddMultiple(0, -(m / n), n);
  }

  /** Subtracting a reduced value instead of the value itself does not change the remainder. */
  lemma ModSubRight(j: int, m: int, n: int)
    requires n > 0
    ensures (j - m % n) % n == (j - m) % n
  {
    assert j - m % n == (j - m) + n * (m / n);
    ModAddMultiple(j - m, m / n, n);
  }
}
