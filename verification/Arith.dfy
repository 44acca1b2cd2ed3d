/** Products and quotients of variables, and powers of two: facts the solver does not find by itself. */
module Arith {

  lemma MulMono(d: int, x: int, y: int)
    requires d >= 0 && x <= y
    ensures d * x <= d * y
  {
    assert d * (y - x) >= 0;
    assert d * (y - x) == d * y - d * x;
  }

  lemma MulStep(d: int, x: int, y: int)
    requires d >= 0 && x < y
    ensures d * x + d <= d * y
  {
    MulMono(d, x + 1, y);
    assert d * (x + 1) == d * x + d;
  }

  lemma Distribute(d: int, x: int, y: int)
    ensures d * (x + y) == d * x + d * y
    ensures d * (x - y) == d * x - d * y
  {
  }

  lemma MulAssoc(a: int, b: int, c: int)
    ensures a * b * c == a * (b * c)
  {
  }

  lemma SameQuotient(b: int, q: int, r: int, q': int, r': int)
    requires 0 <= r < b && 0 <= r' < b && b * q + r == b * q' + r'
    ensures q == q' && r == r'
  {
    if q < q' {
      MulStep(b, q, q');
    } else if q' < q {
      MulStep(b, q', q);
    }
  }

  lemma DivMod(x: int, b: int)
    requires b > 0
    ensures x == b * (x / b) + x % b && 0 <= x % b < b
  {
  }

  /** Quotient and remainder are the only pair with x == b * q + r and 0 <= r < b. */
  lemma QuotientIs(x: int, b: int, q: int, r: int)
    requires 0 <= r < b && x == b * q + r
    ensures x / b == q && x % b == r
  {
    DivMod(x, b);
    SameQuotient(b, q, r, x / b, x % b);
  }

  lemma QuotientAtLeast(x: int, b: int, q: int)
    requires b > 0 && b * q <= x
    ensures q <= x / b
  {
    DivMod(x, b);
    if x / b < q {
      MulStep(b, x / b, q);
    }
  }

  lemma SmallMod(x: int, b: int)
    requires 0 <= x < b
    ensures x % b == x
  {
  }

  lemma ModAddMultiple(x: int, b: int, k: int)
    requires b > 0
    ensures (x + b * k) % b == x % b
  {
    DivMod(x, b);
    Distribute(b, x / b, k);
    QuotientIs(x + b * k, b, x / b + k, x % b);
  }

  ghost function Pow2(k: nat): (p: nat)
    ensures p > 0
  {
    if k == 0 then 1 else 2 * Pow2(k - 1)
  }

  lemma Pow2Of32()
    ensures Pow2(31) == 0x8000_0000 && Pow2(32) == 0x1_0000_0000
  {
    assert Pow2(8) == 0x100;
    assert Pow2(16) == 0x1_0000;
    assert Pow2(24) == 0x100_0000;
  }
}
