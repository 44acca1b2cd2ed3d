/**
 The 32-bit reciprocal that a speed hack multiplies by instead of dividing.

 `GetReciprocal` is the shift-and-subtract loop of the source on 32-bit values; the theorems
 say that it is the exact quotient 2^32 / d, and for which numerators the multiplication
 by that quotient plus one is the same as the division.
 */
module Reciprocal {
  import opened Arith

  const TWO32 := 0x1_0000_0000

  type U32 = x: int | 0 <= x < TWO32

  lemma {:induction false} Pow2Grows(j: nat, k: nat)
    requires j <= k
    ensures Pow2(j) <= Pow2(k)
  {
    if j < k {
      Pow2Grows(j, k - 1);
    }
  }

  // ------------------------------------------------------------------ the code

  /** Shifts i left until its top bit is set; the shift drops nothing. */
  method CountLeadingZeroes(i: U32) returns (count: nat)
    requires i > 0
    ensures count < 32 && 0x8000_0000 <= i * Pow2(count) < TWO32
  {
    var shifted: U32 := i;
    count := 0;
    while shifted < 0x8000_0000
      invariant shifted > 0 && shifted == i * Pow2(count) && count <= 31
      invariant Pow2(count) <= shifted
      decreases TWO32 - shifted
    {
      if count == 31 {
        Pow2Of32();
      }
      MulAssoc(i, Pow2(count), 2);
      assert Pow2(count) * 2 == Pow2(count + 1);
      shifted := shifted * 2 % TWO32;
      count := count + 1;
    }
  }

  /** floor(2^32 / divisor), by long division with the divisor and the mask shifted together. */
  method GetReciprocal(divisor: U32) returns (result: U32)
    ensures divisor <= 1 ==> result == 0xFFFF_FFFF
    ensures divisor >= 2 ==> result == TWO32 / divisor
  {
    if divisor <= 1 {
      return 0xFFFF_FFFF;
    }
    var leadingZeroes := CountLeadingZeroes(divisor);
    ghost var k := leadingZeroes;
    NormalizedMask(divisor, k);
    var mask: U32 := ShiftLeft(1, leadingZeroes);
    var d: U32 := ShiftLeft(divisor, leadingZeroes);
    if d == 0x8000_0000 {
      PowerOfTwoQuotient(divisor, mask);
      return mask * 2 % TWO32;
    }
    result := Divide(divisor, k, d, mask);
  }

  /** The long division itself: d and mask are the divisor and 1, both shifted left by k. */
  method Divide(divisor: U32, ghost k0: nat, d0: U32, mask0: U32) returns (result: U32)
    requires divisor >= 2 && mask0 == Pow2(k0) && mask0 <= 0x4000_0000
    requires d0 == divisor * mask0 && d0 > 0x8000_0000
    ensures result == TWO32 / divisor
  {
    hide Pow2;
    ghost var k := k0;
    var d, mask := d0, mask0;
    var dividend: U32 := (TWO32 - d) % TWO32;
    result := mask;
    while true
      invariant mask == Pow2(k) && d == divisor * mask && mask <= 0x4000_0000
      invariant dividend + divisor * result == TWO32
      invariant dividend - d < d && result > 0
      decreases mask
    {
      if dividend >= d {
        TakeOff(divisor, result, mask, dividend);
        dividend := dividend - d;
        result := (result + mask) % TWO32;
      }
      HalfMask(divisor, k);
      if mask % 2 != 0 {
        break;
      }
      k := k - 1;
      d := d / 2;
      mask := mask / 2;
    }
    Finished(divisor, result, dividend);
  }

  lemma TakeOff(divisor: int, result: int, mask: int, dividend: int)
    requires divisor >= 2 && result > 0 && mask > 0
    requires dividend + divisor * result == TWO32 && divisor * mask <= dividend
    ensures dividend - divisor * mask + divisor * (result + mask) == TWO32
    ensures result + mask < TWO32
  {
    Distribute(divisor, result, mask);
    ResultFits(divisor, result + mask, dividend - divisor * mask);
  }

  lemma Finished(divisor: int, result: int, dividend: int)
    requires divisor >= 2 && 0 <= dividend < divisor * 1 && dividend + divisor * result == TWO32
    ensures result == TWO32 / divisor
  {
    QuotientIs(TWO32, divisor, result, dividend);
  }

  lemma HalfMask(divisor: int, k: nat)
    ensures Pow2(k) % 2 != 0 ==> k == 0 && Pow2(k) == 1
    ensures Pow2(k) % 2 == 0 ==> k > 0 && Pow2(k) / 2 == Pow2(k - 1)
    ensures Pow2(k) % 2 == 0 ==> divisor * Pow2(k) / 2 == divisor * Pow2(k - 1)
  {
    if k > 0 {
      MulAssoc(divisor, Pow2(k - 1), 2);
    }
  }

  /** x << k on 32 bits. */
  function ShiftLeft(x: U32, k: nat): (r: U32)
    ensures x * Pow2(k) < TWO32 ==> r == x * Pow2(k)
    decreases k
  {
    if k == 0 then x
    else
      MulAssoc(x, Pow2(k - 1), 2);
      assert 0 <= x * Pow2(k - 1);
      ShiftLeft(x, k - 1) * 2 % TWO32
  }

  lemma NormalizedMask(divisor: int, k: nat)
    requires divisor >= 2 && divisor * Pow2(k) < TWO32
    ensures Pow2(k) <= 0x4000_0000
  {
    MulMono(Pow2(k), 2, divisor);
    Pow2Of32();
    if k >= 31 {
      Pow2Grows(31, k);
    } else {
      Pow2Grows(k, 30);
    }
  }

  lemma PowerOfTwoQuotient(divisor: int, mask: int)
    requires divisor >= 2 && mask > 0 && divisor * mask == 0x8000_0000
    ensures 2 * mask == TWO32 / divisor && 2 * mask < TWO32
  {
    Distribute(divisor, mask, mask);
    QuotientIs(TWO32, divisor, 2 * mask, 0);
    ResultFits(divisor, 2 * mask, 0);
  }

  lemma ResultFits(divisor: int, result: int, rest: int)
    requires divisor >= 2 && result > 0 && rest >= 0 && rest + divisor * result == TWO32
    ensures result < TWO32
  {
    MulMono(result, 2, divisor);
  }

  // ------------------------------------------------------------------ what it is for

  /** The multiplier a hack stores for d cycles per iteration. */
  function Divider(d: U32): (m: int)
    requires d >= 2
  {
    TWO32 / d + 1
  }

  /** How far the multiplier overshoots: d * Divider(d) - 2^32, between 1 and d. */
  lemma Overshoot(d: U32)
    requires d >= 2
    ensures d * Divider(d) == TWO32 + (d - TWO32 % d)
    ensures 1 <= d - TWO32 % d <= d
  {
    assert TWO32 == d * (TWO32 / d) + TWO32 % d;
    Distribute(d, TWO32 / d, 1);
  }

  /** Multiplying and keeping the high word divides n by d, exactly when the overshoot times
      n still fits in what separates n from the next multiple of d. */
  lemma MultiplyDividesIff(n: nat, d: U32)
    requires d >= 2
    ensures n * Divider(d) / TWO32 == n / d <==> n * (d - TWO32 % d) < (d - n % d) * TWO32
  {
    var m, e, q, r := Divider(d), d - TWO32 % d, n / d, n % d;
    Overshoot(d);
    assert n == d * q + r;
    var x := n * m - q * TWO32;
    Expand(n, m, q, d, e, r);
    assert d * x == r * TWO32 + n * e;
    if n * e < (d - r) * TWO32 {
      NonNegFactor(d, x, r, n, e);
      if x >= TWO32 {
        MulMono(d, TWO32, x);
      }
      QuotientIs(n * m, TWO32, q, x);
    } else {
      if x < TWO32 {
        MulStep(d, x, TWO32);
      }
      QuotientAtLeast(n * m, TWO32, q + 1);
    }
  }

  lemma Expand(n: int, m: int, q: int, d: int, e: int, r: int)
    requires d * m == TWO32 + e && n == d * q + r
    ensures d * (n * m - q * TWO32) == r * TWO32 + n * e
  {
    calc {
      d * (n * m - q * TWO32);
      d * (n * m) - d * (q * TWO32);
      { assert d * (n * m) == n * (d * m); }
      n * (TWO32 + e) - d * (q * TWO32);
      { assert d * (q * TWO32) == (d * q) * TWO32; }
      n * TWO32 + n * e - (d * q) * TWO32;
      { assert (n - d * q) * TWO32 == n * TWO32 - (d * q) * TWO32; }
      (n - d * q) * TWO32 + n * e;
    }
  }

  lemma NonNegFactor(d: int, x: int, r: int, n: nat, e: int)
    requires d > 0 && e > 0 && r >= 0 && d * x == r * TWO32 + n * e
    ensures x >= 0
  {
    MulMono(n, 0, e);
    if x < 0 {
      MulStep(d, x, 0);
    }
  }

  /** In particular for every n with n * d < 2^32: all the cycle counts a frame can hold. */
  lemma MultiplyDivides(n: nat, d: U32)
    requires d >= 2 && n * d < TWO32
    ensures n * Divider(d) / TWO32 == n / d
  {
    MultiplyDividesIff(n, d);
    Overshoot(d);
    MulMono(n, d - TWO32 % d, d);
  }

  /** What a found hack stores: three ticks a cycle, and the multiplier for that count. A count of
      zero leaves the multiplier 0, because the sum wraps. */
  method StoreHack(totalCycles: nat) returns (cyclesPerIteration: U32, divider: U32)
    requires 3 * totalCycles < TWO32
    ensures cyclesPerIteration == 3 * totalCycles
    ensures totalCycles == 0 ==> divider == 0
    ensures totalCycles > 0 ==>
      forall n: nat | n * cyclesPerIteration < TWO32 :: n * divider / TWO32 == n / cyclesPerIteration
  {
    cyclesPerIteration := totalCycles * 3;
    var reciprocal := GetReciprocal(cyclesPerIteration);
    divider := (reciprocal + 1) % TWO32;
    if totalCycles > 0 {
      DividesAll(cyclesPerIteration);
    }
  }

  lemma DividesAll(d: U32)
    requires d >= 2
    ensures 0 < Divider(d) < TWO32
    ensures forall n: nat | n * d < TWO32 :: n * Divider(d) / TWO32 == n / d
  {
    DivMod(TWO32, d);
    QuotientBelow(d, TWO32 / d, TWO32 % d);
    forall n: nat | n * d < TWO32 ensures n * Divider(d) / TWO32 == n / d {
      MultiplyDivides(n, d);
    }
  }

  lemma QuotientBelow(d: U32, q: int, r: int)
    requires d >= 2 && 0 <= r < d && TWO32 == d * q + r
    ensures 0 <= q < TWO32 - 1
  {
    if q >= TWO32 - 1 {
      MulMono(d, TWO32 - 1, q);
    } else if q < 0 {
      MulStep(d, q, 0);
    }
  }

  /** The two multipliers written as literals in the source are the computed ones. */
  lemma CapcomDividers()
    ensures Divider(273) == 0x00F0_0F01
    ensures Divider(285) == 0x00E5_F36D
  {
  }
}
