/** Facts about integer multiplication and Euclidean remainder that the
    solver does not find on its own. */
module Arithmetic {

  /** The remainder is determined by any quotient/remainder decomposition. */
  lemma ModUnique(x: int, m: int, q: int, r: int)
    requires m > 0 && 0 <= r < m && x == q * m + r
    ensures x % m == r
  {
    var q', r' := x / m, x % m;
    assert (q' - q) * m == r - r';
    if q' > q {
      MulAtLeast(q' - q, m);
    } else if q' < q {
      MulAtLeast(q - q', m);
    }
  }

  /** A positive multiple of m is at least m. */
  lemma MulAtLeast(k: int, m: int)
    requires k >= 1 && m > 0
    ensures k * m >= m
  {
    assert k * m == (k - 1) * m + m;
    assert (k - 1) * m >= 0;
  }

  /** Reducing an addend first does not change the sum mod m. */
  lemma ModAddLeft(x: int, y: int, m: int)
    requires m > 0
    ensures ((x % m) + y) % m == (x + y) % m
  {
    var q, r := (x + y) / m, (x + y) % m;
    ModUnique((x % m) + y, m, q - x / m, r);
  }

  /** Reducing a factor first does not change the product mod m. */
  lemma ModMulLeft(x: int, y: int, m: int)
    requires m > 0
    ensures ((x % m) * y) % m == (x * y) % m
  {
    var q := x / m;
    assert x * y == (x % m) * y + (q * y) * m by {
      assert x == q * m + x % m;
    }
    var q', r' := (x * y) / m, (x * y) % m;
    ModUnique((x % m) * y, m, q' - q * y, r');
  }

  /** Adding a multiple of m leaves the remainder unchanged. */
  lemma ModAddMultiple(x: int, k: int, m: int)
    requires m > 0
    ensures (x + m * k) % m == x % m
  {
    ModUnique(x + m * k, m, x / m + k, x % m);
  }

  lemma MulAssoc(a: int, b: int, c: int)
    ensures a * (b * c) == (a * b) * c
  {
  }

  lemma MulMonotone(a: nat, b: nat, c: nat)
    requires b <= c
    ensures a * b <= a * c
  {
  }
}
