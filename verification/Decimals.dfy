/** Arbitrary-precision decimals: a coefficient times a power of ten, as far as the services use
    them. Rescaling truncates toward zero. */
module Decimals {
  import opened Numerals

  datatype Decimal = Decimal(coefficient: int, exponent: int)

  /** Integer division truncating toward zero, as big.Int.Quo. */
  function Quo(n: int, d: nat): int
    requires d > 0
  {
    if n >= 0 then n / d else -((-n) / d)
  }

  /** The quotient cuts off toward zero for either sign. */
  lemma QuoTruncates(n: nat, d: nat)
    requires d > 0
    ensures Quo(n, d) * d <= n < Quo(n, d) * d + d && Quo(0 - n, d) == 0 - Quo(n, d)
  {
    DivModIdentity(d, n);
  }

  /** The same number with another exponent, cut off toward zero when digits are lost. */
  function Rescale(x: Decimal, exponent: int): Decimal {
    if exponent <= x.exponent then
      Decimal(x.coefficient * Power(10, x.exponent - exponent), exponent)
    else
      PowerPositive(10, exponent - x.exponent);
      Decimal(Quo(x.coefficient, Power(10, exponent - x.exponent)), exponent)
  }

  /** Truncate to a number of decimal places; shorter numbers are left alone. */
  function Truncate(x: Decimal, places: nat): Decimal {
    if x.exponent + places < 0 then Rescale(x, 0 - places) else x
  }

  function Mul(x: Decimal, y: Decimal): Decimal {
    Decimal(x.coefficient * y.coefficient, x.exponent + y.exponent)
  }

  /** The integer part. */
  function BigInt(x: Decimal): int {
    Rescale(x, 0).coefficient
  }

  /** A decimal counted in units of 10^-8, cut off toward zero. */
  function InUnits(x: Decimal): int {
    Rescale(x, -8).coefficient
  }

  lemma MulAssoc(x: int, y: int, z: int)
    ensures x * (y * z) == (x * y) * z
  {
  }

  lemma PowerAdd(b: nat, j: nat, k: nat)
    ensures Power(b, j + k) == Power(b, j) * Power(b, k)
  {
    if k > 0 {
      PowerAdd(b, j, k - 1);
      MulAssoc(Power(b, j), Power(b, k - 1), b);
    }
  }

  lemma MulDiv(a: nat, k: nat, d: nat)
    requires k > 0 && d > 0
    ensures k * d > 0 && (a * k) / (k * d) == a / d
  {
    MulMono(1, k, 1, d);
    DivModIdentity(d, a);
    var q, r := a / d, a % d;
    assert a * k == q * (k * d) + r * k by {
      assert (q * d + r) * k == q * (k * d) + r * k;
    }
    assert r * k < k * d by {
      MulMono(r + 1, d, k, k);
      assert (r + 1) * k == r * k + k;
    }
    DivModUnique(k * d, q, r * k);
  }

  // ---------------------------------------------------------------- scaling by powers of ten

  /** x * 10^e, rounded down. */
  function Scale(x: nat, e: int): nat {
    if e >= 0 then x * Power(10, e)
    else
      PowerPositive(10, -e);
      x / Power(10, -e)
  }

  lemma MulExact(x: nat, d: nat)
    requires d > 0
    ensures x * d / d == x
  {
    DivModUnique(d, x, 0);
  }

  /** Scaling up and then down by less is scaling up by the difference. */
  lemma ScaleBack(x: nat, k: nat, e: nat)
    requires e <= k
    ensures Power(10, e) > 0 && x * Power(10, k) / Power(10, e) == x * Power(10, k - e)
  {
    PowerPositive(10, e);
    PowerAdd(10, k - e, e);
    MulAssoc(x, Power(10, k - e), Power(10, e));
    MulExact(x * Power(10, k - e), Power(10, e));
  }

  /** Scaling up and then by any amount is scaling once. */
  lemma ScaleTwice(x: nat, k: nat, e: int)
    ensures Scale(x * Power(10, k), e) == Scale(x, e + k)
  {
    hide Power;
    PowerPositive(10, k);
    if e >= 0 {
      PowerAdd(10, k, e);
      MulAssoc(x, Power(10, k), Power(10, e));
    } else if e + k >= 0 {
      ScaleBack(x, k, -e);
    } else {
      PowerPositive(10, -(e + k));
      PowerAdd(10, k, -(e + k));
      MulDiv(x, Power(10, k), Power(10, -(e + k)));
    }
  }

  /** Rescaling a nonnegative decimal is scaling its coefficient. */
  lemma RescaleIsScale(x: Decimal, exponent: int)
    requires x.coefficient >= 0
    ensures Rescale(x, exponent).coefficient == Scale(x.coefficient, x.exponent - exponent)
  {
  }
}
