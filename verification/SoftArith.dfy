/** Multiplication and division in software, for cores without the M extension. */
module SoftArith {
  import opened Powers

  const MODULUS: int := 0x1_0000_0000
  const SIGNED_LIMIT: int := 0x8000_0000

  type U32 = x: int | 0 <= x < 0x1_0000_0000
  type S32 = x: int | -0x8000_0000 <= x < 0x8000_0000

  /** Unsigned arithmetic wraps around. */
  function WrapUnsigned(x: int): U32 {
    x % MODULUS
  }

  /** So does signed arithmetic, on the compilers this code is for. */
  function WrapSigned(x: int): S32 {
    var u := x % MODULUS;
    if u < SIGNED_LIMIT then u else u - MODULUS
  }

  // ---------------------------------------------------------------- unsigned division

  /** What is left of the dividend above bit n. */
  function Prefix(dividend: U32, n: nat): int {
    dividend / Pow2(n)
  }

  function BitAt(dividend: U32, n: nat): int {
    Prefix(dividend, n) % 2
  }

  lemma DivideDivide(x: int, p: int)
    requires x >= 0 && p > 0
    ensures x / (2 * p) == (x / p) / 2
  {
    var q, r := x / p, x % p;
    var h, b := q / 2, q % 2;
    assert x == (2 * h + b) * p + r == h * (2 * p) + (b * p + r);
    QuotientIsUnique(h, 2 * p, b * p + r);
  }

  lemma QuotientIsUnique(q: int, d: int, r: int)
    requires d > 0 && 0 <= r < d
    ensures (q * d + r) / d == q && (q * d + r) % d == r
  {
    var n := q * d + r;
    var a, b := n / d, n % d;
    assert (a - q) * d == r - b;
    if a > q {
      assert (a - q) * d >= d by { Grows(a - q, d); }
    }
    if a < q {
      assert (q - a) * d >= d by { Grows(q - a, d); }
    }
  }

  lemma Grows(k: int, d: int)
    requires k >= 1 && d > 0
    ensures k * d >= d
  {
  }

  lemma PrefixSteps(dividend: U32, n: nat)
    ensures Prefix(dividend, n) == 2 * Prefix(dividend, n + 1) + BitAt(dividend, n)
    ensures 0 <= Prefix(dividend, n) <= dividend
  {
    DivideDivide(dividend, Pow2(n));
    DivisionShrinks(dividend, Pow2(n));
  }

  lemma ProductIsNoLess(q: int, p: int)
    requires q >= 0 && p > 0
    ensures q * p >= q
  {
    assert q * p == q + q * (p - 1);
  }

  lemma DivisionShrinks(x: int, p: int)
    requires x >= 0 && p > 0
    ensures 0 <= x / p <= x
  {
    var q := x / p;
    assert q * p <= x;
    ProductIsNoLess(q, p);
  }

  lemma {:induction false} NoPrefix(dividend: U32)
    ensures Prefix(dividend, 32) == 0 && Prefix(dividend, 0) == dividend
  {
    assert Pow2(8) == 256;
    assert Pow2(16) == 0x1_0000 by { assert Pow2(12) == 4096; }
    assert Pow2(24) == 0x100_0000 by { assert Pow2(20) == 0x10_0000; }
    assert Pow2(32) == MODULUS by { assert Pow2(28) == 0x1000_0000; }
    QuotientIsUnique(0, MODULUS, dividend);
  }

  /** The shift of the partial remainder never loses a bit, whatever the divisor: it is
      bounded by the part of the dividend consumed so far. */
  lemma ShiftKeepsPartial(dividend: U32, divisor: int, n: nat, high: int, partial: int)
    requires divisor > 0 && high >= 0
    requires Prefix(dividend, n + 1) == high * divisor + partial
    ensures Prefix(dividend, n) == (2 * high) * divisor + (2 * partial + BitAt(dividend, n))
    ensures 0 <= BitAt(dividend, n) <= 1 && 2 * partial + BitAt(dividend, n) <= dividend
  {
    PrefixSteps(dividend, n);
    assert high * divisor >= 0;
    assert (2 * high) * divisor == 2 * (high * divisor);
  }

  /** Shift-subtract division. */
  method UDivMod32(dividend: U32, divisor: U32) returns (quotient: U32, remainder: U32)
    ensures divisor == 0 ==> quotient == 0xFFFF_FFFF && remainder == dividend
    ensures divisor != 0 ==> quotient * divisor + remainder == dividend && remainder < divisor
  {
    if divisor == 0 {
      return 0xFFFF_FFFF, dividend;
    }
    var q: int, partial: int := 0, 0;
    ghost var high := 0;
    var bit := 31;
    NoPrefix(dividend);
    while bit >= 0
      invariant -1 <= bit <= 31
      invariant 0 <= partial < divisor && high >= 0
      invariant q == high * Pow2(bit + 1)
      invariant Prefix(dividend, bit + 1) == high * divisor + partial
    {
      hide Prefix, Pow2, WrapUnsigned;
      ShiftKeepsPartial(dividend, divisor, bit, high, partial);
      NoWrap(2 * partial);
      HighSteps(high, bit, divisor);
      high := 2 * high;
      // the shifted value has bit 0 clear, so that the or is a sum
      partial := WrapUnsigned(2 * partial) + BitAt(dividend, bit);
      if partial >= divisor {
        partial := partial - divisor;
        // q is a multiple of 2 * Pow2(bit), so that the or is a sum
        q := q + Pow2(bit);
        high := high + 1;
      }
      bit := bit - 1;
    }
    assert q == high by {
      assert Pow2(0) == 1;
    }
    QuotientFits(dividend, divisor, q, partial);
    quotient, remainder := q, partial;
  }

  lemma NoWrap(x: int)
    requires 0 <= x < MODULUS
    ensures WrapUnsigned(x) == x
  {
  }

  lemma HighSteps(high: int, n: nat, divisor: int)
    ensures high * Pow2(n + 1) == (2 * high) * Pow2(n)
    ensures (2 * high + 1) * Pow2(n) == (2 * high) * Pow2(n) + Pow2(n)
    ensures (2 * high + 1) * divisor == (2 * high) * divisor + divisor
  {
  }

  lemma QuotientFits(dividend: U32, divisor: int, q: int, r: int)
    requires divisor > 0 && q >= 0 && r >= 0 && dividend == q * divisor + r
    ensures q <= dividend
  {
    ProductIsNoLess(q, divisor);
  }

  /** The two equations leave one result only. */
  lemma DivisionIsUnique(n: int, d: int, q: int, r: int)
    requires d > 0 && n == q * d + r && 0 <= r < d
    ensures q == n / d && r == n % d
  {
    QuotientIsUnique(q, d, r);
  }

  method UDivSi3(dividend: U32, divisor: U32) returns (quotient: U32)
    ensures quotient == if divisor == 0 then 0xFFFF_FFFF else dividend / divisor
  {
    var r;
    quotient, r := UDivMod32(dividend, divisor);
    if divisor != 0 {
      DivisionIsUnique(dividend, divisor, quotient, r);
    }
  }

  method UModSi3(dividend: U32, divisor: U32) returns (remainder: U32)
    ensures remainder == if divisor == 0 then dividend else dividend % divisor
  {
    var q;
    q, remainder := UDivMod32(dividend, divisor);
    if divisor != 0 {
      DivisionIsUnique(dividend, divisor, q, remainder);
    }
  }

  // ---------------------------------------------------------------- multiplication

  lemma SumWraps(a: int, b: int)
    ensures WrapUnsigned(WrapUnsigned(a) + WrapUnsigned(b)) == WrapUnsigned(a + b)
  {
  }

  /** Shift-add multiplication: the product modulo 2^32. */
  method MulSi3(multiplicand: U32, multiplier: U32) returns (result: U32)
    ensures result == WrapUnsigned(multiplicand * multiplier)
  {
    var left: U32, right: U32 := multiplicand, multiplier;
    result := 0;
    ghost var wideLeft, wideResult := multiplicand as int, 0;
    while right != 0
      invariant left == WrapUnsigned(wideLeft) && result == WrapUnsigned(wideResult)
      invariant wideResult + wideLeft * right == multiplicand * multiplier
      decreases right
    {
      if right % 2 == 1 {
        SumWraps(wideResult, wideLeft);
        result := WrapUnsigned(result + left);
        wideResult := wideResult + wideLeft;
      }
      SumWraps(wideLeft, wideLeft);
      HalveDouble(wideLeft, right);
      left := WrapUnsigned(2 * left);
      wideLeft := 2 * wideLeft;
      right := right / 2;
    }
  }

  lemma HalveDouble(left: int, right: int)
    ensures left * right == (2 * left) * (right / 2) + (if right % 2 == 1 then left else 0)
  {
    var h, b := right / 2, right % 2;
    assert right == 2 * h + b;
    assert left * right == 2 * (left * h) + left * b;
  }

  // ---------------------------------------------------------------- signed division

  function Abs(x: int): (r: nat) {
    if x < 0 then -x else x
  }

  function Quotient(n: int, d: int): int
    requires d != 0
  {
    if (n < 0) != (d < 0) then -(Abs(n) / Abs(d)) else Abs(n) / Abs(d)
  }

  function Remainder(n: int, d: int): int
    requires d != 0
  {
    if n < 0 then -(Abs(n) % Abs(d)) else Abs(n) % Abs(d)
  }

  /** Division that truncates toward zero, the remainder taking the dividend's sign. */
  predicate Truncates(n: int, d: int, q: int, r: int) {
    n == q * d + r && Abs(r) < Abs(d) && (n >= 0 ==> r >= 0) && (n <= 0 ==> r <= 0)
  }

  lemma SignsOfProduct(x: int, y: int)
    ensures (-x) * y == -(x * y) && x * (-y) == -(x * y) && (-x) * (-y) == x * y
  {
  }

  lemma QuotientTruncates(n: int, d: int)
    requires d != 0
    ensures Truncates(n, d, Quotient(n, d), Remainder(n, d))
  {
    var a, b := Abs(n), Abs(d);
    var k, m := a / b, a % b;
    assert a == k * b + m;
    SignsOfProduct(k, b);
  }

  lemma ZeroTruncates(d: int, q: int, r: int)
    requires d != 0 && Truncates(0, d, q, r)
    ensures q == 0 && r == 0
  {
    if q != 0 {
      NoZeroProduct(q, d);
    }
  }

  /** Quotient and Remainder are the one truncating division. */
  lemma TruncatingDivision(n: int, d: int, q: int, r: int)
    requires d != 0
    ensures Truncates(n, d, q, r) <==> q == Quotient(n, d) && r == Remainder(n, d)
  {
    QuotientTruncates(n, d);
    if Truncates(n, d, q, r) {
      if n == 0 {
        ZeroTruncates(d, q, r);
        ZeroTruncates(d, Quotient(n, d), Remainder(n, d));
      } else {
        SameSignsTruncate(n, d, q, r);
        SameSignsTruncate(n, d, Quotient(n, d), Remainder(n, d));
      }
    }
  }

  lemma SameSignsTruncate(n: int, d: int, q: int, r: int)
    requires d != 0 && n != 0 && Truncates(n, d, q, r)
    ensures q == (if (n < 0) != (d < 0) then -(Abs(n) / Abs(d)) else Abs(n) / Abs(d))
    ensures r == if n < 0 then -(Abs(n) % Abs(d)) else Abs(n) % Abs(d)
  {
    var s := if (n < 0) != (d < 0) then -q else q;
    SignsOfProduct(q, d);
    assert Abs(n) == s * Abs(d) + Abs(r);
    DivisionIsUnique(Abs(n), Abs(d), s, Abs(r));
  }

  lemma NoZeroProduct(q: int, d: int)
    requires q != 0 && d != 0
    ensures q * d != 0
  {
  }

  /** The quotient does not fit 32 bits in one case only. */
  lemma QuotientOverflows(n: S32, d: S32)
    requires d != 0
    ensures -SIGNED_LIMIT <= Quotient(n, d) < SIGNED_LIMIT <==> !(n == -SIGNED_LIMIT && d == -1)
    ensures -SIGNED_LIMIT <= Remainder(n, d) < SIGNED_LIMIT
    ensures n == -SIGNED_LIMIT && d == -1 ==> WrapSigned(Quotient(n, d)) == -SIGNED_LIMIT
  {
    var a, b := Abs(n), Abs(d);
    var q := a / b;
    DivisionShrinks(a, b);
    assert a == q * b + a % b;
    if b == 1 {
      DivisionIsUnique(a, 1, a, 0);
    } else if a > 0 {
      ProperQuotient(a, b, q, a % b);
    }
  }

  lemma ProperQuotient(a: int, b: int, q: int, r: int)
    requires a > 0 && b > 1 && q >= 0 && r >= 0 && a == q * b + r
    ensures q < a
  {
    if q > 0 {
      assert q * b == q + q * (b - 1);
      Grows(q, b - 1);
    }
  }

  lemma WrapFits(x: int)
    requires -SIGNED_LIMIT <= x < SIGNED_LIMIT
    ensures WrapSigned(x) == x
  {
  }

  function NegateSigned(x: S32): S32 {
    WrapSigned(-(x as int))
  }

  lemma NegationWraps(x: int)
    ensures NegateSigned(WrapSigned(x)) == WrapSigned(-x)
  {
  }

  /** The unsigned value of the negation of a negative number, the least one included. */
  lemma MagnitudeIsAbs(x: S32)
    ensures Magnitude(x) == Abs(x)
  {
  }

  /** The operand made unsigned, after its negation where it is negative. */
  function Magnitude(x: S32): U32 {
    if x < 0 then WrapUnsigned(NegateSigned(x)) else WrapUnsigned(x)
  }

  /** Signed division; by zero it gives 1 or -1 by the sign of the dividend. */
  method DivSi3(dividend: S32, divisor: S32) returns (result: S32)
    ensures divisor != 0 ==> result == WrapSigned(Quotient(dividend, divisor))
    ensures divisor == 0 ==> result == if dividend < 0 then 1 else -1
  {
    hide WrapSigned, NegateSigned, Magnitude;
    var negative := false;
    if dividend < 0 {
      negative := !negative;
    }
    if divisor < 0 {
      negative := !negative;
    }
    var udividend, udivisor := Magnitude(dividend), Magnitude(divisor);
    MagnitudeIsAbs(dividend);
    MagnitudeIsAbs(divisor);
    var quotient, r := UDivMod32(udividend, udivisor);
    NegationWraps(quotient);
    result := if negative then NegateSigned(WrapSigned(quotient)) else WrapSigned(quotient);
    if divisor != 0 {
      DivisionIsUnique(udividend, udivisor, quotient, r);
    } else {
      AllOnes();
    }
  }

  lemma AllOnes()
    ensures WrapSigned(0xFFFF_FFFF) == -1 && WrapSigned(-0xFFFF_FFFF) == 1
  {
  }

  /** Signed remainder; by zero it gives the dividend. */
  method ModSi3(dividend: S32, divisor: S32) returns (result: S32)
    ensures divisor != 0 ==> result == Remainder(dividend, divisor)
    ensures divisor == 0 ==> result == dividend
  {
    hide WrapSigned, NegateSigned, Magnitude;
    var negative := dividend < 0;
    var udividend, udivisor := Magnitude(dividend), Magnitude(divisor);
    MagnitudeIsAbs(dividend);
    MagnitudeIsAbs(divisor);
    var q, remainder := UDivMod32(udividend, udivisor);
    NegationWraps(remainder);
    result := if negative then NegateSigned(WrapSigned(remainder)) else WrapSigned(remainder);
    if divisor != 0 {
      DivisionIsUnique(udividend, udivisor, q, remainder);
      QuotientOverflows(dividend, divisor);
      WrapFits(Remainder(dividend, divisor));
    } else {
      WrapFits(dividend);
    }
  }
}
