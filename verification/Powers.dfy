/** Powers of two, and division by them. */
module Powers {

  function Pow2(n: nat): (p: nat)
    ensures p > 0
  {
    if n == 0 then 1 else 2 * Pow2(n - 1)
  }

  /** Dividing and halving is dividing by twice as much, with rounding towards minus infinity. */
  lemma HalfOfQuotient(x: int, p: nat)
    requires p > 0
    ensures (x / p) / 2 == x / (2 * p)
  {
    var q, r := x / p, x % p;
    var h, o := q / 2, q % 2;
    assert x == (2 * h + o) * p + r == h * (2 * p) + (o * p + r);
    assert 0 <= o * p + r < 2 * p;
    QuotientIs(x, 2 * p, h, o * p + r);
  }

  lemma QuotientIs(x: int, p: nat, q: int, r: int)
    requires p > 0 && x == q * p + r && 0 <= r < p
    ensures x / p == q && x % p == r
  {
    var d := x / p - q;
    assert d * p == r - x % p;
    NoMultipleBetween(d, p);
  }

  lemma NoMultipleBetween(d: int, p: int)
    requires p > 0 && -p < d * p < p
    ensures d == 0
  {
    MultipleGrows(d, p);
  }

  lemma MultipleGrows(d: int, p: int)
    requires p > 0
    ensures d >= 1 ==> d * p >= p
    ensures d <= -1 ==> d * p <= -p
  {
  }

  /** Rounding towards minus infinity: the negative of a number and one more. */
  lemma QuotientOfComplement(x: int, p: nat)
    requires p > 0
    ensures (-1 - x) / p == -1 - x / p
  {
    var q, r := x / p, x % p;
    assert -1 - x == (-1 - q) * p + (p - 1 - r);
    QuotientIs(-1 - x, p, -1 - q, p - 1 - r);
  }

  /** Remainders of sums. */
  lemma RemainderOfSum(a: int, b: int, m: nat)
    requires m > 0
    ensures (a % m + b) % m == (a + b) % m
  {
    var q, r := (a + b) / m, (a + b) % m;
    assert a % m + b == (q - a / m) * m + r;
    QuotientIs(a % m + b, m, q - a / m, r);
  }
}
