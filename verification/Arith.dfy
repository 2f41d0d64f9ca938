/** Division facts that the solver does not find by itself. */
module Arith {

  predicate PowerOfTwo(n: nat) {
    n == 1 || (n > 1 && n % 2 == 0 && PowerOfTwo(n / 2))
  }

  lemma MulAtLeast(d: nat, x: int)
    requires x >= 1
    ensures d * x >= d
  {
    assert d * x == d * (x - 1) + d;
  }

  lemma MulSub(d: int, a: int, b: int)
    ensures d * a - d * b == d * (a - b)
  {
  }

  /** The remainder is the only r below d with h == d * k + r. */
  lemma ModUnique(h: int, d: nat, k: int, r: nat)
    requires d > 0 && h == d * k + r && r < d
    ensures h % d == r && h / d == k
  {
    var q, s := h / d, h % d;
    assert h == d * q + s;
    MulSub(d, q, k);
    MulSub(d, k, q);
    if q > k {
      MulAtLeast(d, q - k);
    } else if q < k {
      MulAtLeast(d, k - q);
    }
  }

  /** h mod 2n is h mod n, plus n when the quotient by n is odd. */
  lemma ModDouble(h: nat, n: nat)
    requires n > 0
    ensures h % (2 * n) == h % n + if (h / n) % 2 == 1 then n else 0
  {
    var q, r := h / n, h % n;
    var k := q / 2;
    assert h == n * q + r;
    if q % 2 == 1 {
      assert q == 2 * k + 1;
      assert n * q == (2 * n) * k + n;
      ModUnique(h, 2 * n, k, n + r);
    } else {
      assert q == 2 * k;
      assert n * q == (2 * n) * k;
      ModUnique(h, 2 * n, k, r);
    }
  }
}
