/** The two USD computations of one transfer: scaled big integers (analytics/metric/metric.go) and
    decimals (analytics/metric/mongo.go, common/prices/volume.go). */
module PriceMath {
  import opened Numerals
  import opened Decimals

  /** The number of units in one: 10^8. */
  const UNITS: nat := 1_0000_0000

  /** The amount with eight decimals; tokens with more are taken as they are. */
  function NormalizedAmount(amount: int, decimals: int): int {
    if decimals < 8 then amount * Power(10, 8 - decimals) else amount
  }

  /** The price as an integer with eight decimals. */
  function NotionalUnits(price: Decimal): int {
    BigInt(Mul(Truncate(price, 8), Decimal(UNITS, 0)))
  }

  /** The volume in 10^-8 USD. */
  function VolumeUnits(amount: int, decimals: int, price: Decimal): int {
    NormalizedAmount(amount, decimals) * NotionalUnits(price) / UNITS
  }

  function TokenAmount(amount: int, decimals: int): Decimal {
    Decimal(amount, if decimals > 8 then -8 else -decimals)
  }

  /** CalculatePriceUSD. */
  function UsdAmount(price: Decimal, amount: int, decimals: int): Decimal {
    Mul(TokenAmount(amount, decimals), price)
  }

  /** The stored USD amount in 10^-8 USD. */
  function UsdUnits(amount: int, decimals: int, price: Decimal): int {
    InUnits(Truncate(UsdAmount(price, amount, decimals), 8))
  }

  lemma PowersOfTen()
    ensures Power(10, 0) == 1 && Power(10, 1) == 10 && Power(10, 8) == UNITS
  {
    assert Power(10, 2) == 100;
    assert Power(10, 4) == 1_0000;
    assert Power(10, 6) == 100_0000;
  }

  lemma MulSwap(x: int, y: int, z: int)
    ensures (x * y) * z == (x * z) * y
  {
  }

  /** The decimal path cuts amount times price to eight decimals, once. */
  lemma UsdIsScale(amount: nat, decimals: int, price: Decimal)
    requires price.coefficient >= 0
    ensures amount * price.coefficient >= 0 && NormalizedAmount(amount, decimals) * price.coefficient >= 0
    ensures UsdUnits(amount, decimals, price) == Scale(NormalizedAmount(amount, decimals) * price.coefficient, price.exponent)
  {
    var c, x := price.coefficient, UsdAmount(price, amount, decimals);
    MulMono(0, amount, 0, c);
    if decimals < 8 {
      PowerPositive(10, 8 - decimals);
      MulMono(0, amount, 0, Power(10, 8 - decimals));
      MulMono(0, NormalizedAmount(amount, decimals), 0, c);
      MulSwap(amount, Power(10, 8 - decimals), c);
      ScaleTwice(amount * c, 8 - decimals, price.exponent);
    }
    UnitsOfTruncated(x);
    RescaleIsScale(x, -8);
  }

  lemma UnitsOfTruncated(x: Decimal)
    ensures InUnits(Truncate(x, 8)) == InUnits(x)
  {
  }

  /** The integer path cuts the price to eight decimals first. */
  lemma NotionalIsScale(price: Decimal)
    requires price.coefficient >= 0
    ensures NotionalUnits(price) == Scale(price.coefficient, price.exponent + 8)
  {
    var t := Truncate(price, 8);
    PowersOfTen();
    if price.exponent + 8 < 0 {
      PowerPositive(10, 0 - (price.exponent + 8));
      RescaleIsScale(price, -8);
    }
    ScaleTwice(t.coefficient, 8, t.exponent);
    RescaleIsScale(Mul(t, Decimal(UNITS, 0)), 0);
  }

  /** A price with at most eight decimals, written out or not. */
  lemma ShortPriceAgrees(amount: nat, decimals: int, price: Decimal)
    requires price.coefficient >= 0 && price.exponent >= -8
    ensures VolumeUnits(amount, decimals, price) == UsdUnits(amount, decimals, price)
  {
    var a, c, e := NormalizedAmount(amount, decimals), price.coefficient, price.exponent;
    UsdIsScale(amount, decimals, price);
    NotionalIsScale(price);
    PowersOfTen();
    MulAssoc(a, c, Power(10, e + 8));
    ScaleTwice(a * c, e + 8, -8);
  }

  /** Two truncations against one, over plain integers: a*(c/m)/b against a*c/(m*b). */
  lemma CutTwice(a: nat, c: nat, m: nat, b: nat)
    requires m > 0 && b > 0
    ensures m * b > 0 && 0 <= a * (c / m) && 0 <= a * (c % m) && 0 <= a * c
    ensures (a * c) / (m * b) - (a * (c / m)) / b == ((a * (c / m)) % b * m + a * (c % m)) / (m * b)
  {
    MulMono(1, m, 1, b);
    MulMono(0, a, 0, c / m);
    MulMono(0, a, 0, c % m);
    MulMono(0, a, 0, c);
    var q, r := c / m, c % m;
    DivModIdentity(m, c);
    SplitProduct(a, q, r, m);
    CutSum(a * q, a * r, m, b);
  }

  lemma SplitProduct(a: nat, q: nat, r: nat, m: nat)
    ensures a * (q * m + r) == (a * q) * m + a * r
  {
  }

  /** (x*m + y)/(m*b) exceeds x/b by what the remainder of x and y amount to. */
  lemma CutSum(x: nat, y: nat, m: nat, b: nat)
    requires m > 0 && b > 0
    ensures m * b > 0 && (x * m + y) / (m * b) - x / b == (x % b * m + y) / (m * b)
  {
    MulMono(1, m, 1, b);
    var v, t := x / b, x % b;
    DivModIdentity(b, x);
    Regroup(v, t, b, m);
    DivPlusMultiple(v, t * m + y, m * b);
  }

  lemma Regroup(v: nat, t: nat, b: nat, m: nat)
    ensures (v * b + t) * m == v * (m * b) + t * m
  {
  }

  lemma DivPlusMultiple(v: nat, x: nat, d: nat)
    requires d > 0
    ensures (v * d + x) / d == v + x / d
  {
    DivModIdentity(d, x);
    assert v * d + x == (v + x / d) * d + x % d;
    DivModUnique(d, v + x / d, x % d);
  }

  function CeilDiv(a: nat, b: nat): nat
    requires b > 0
  {
    (a + b - 1) / b
  }

  lemma CeilDivCovers(a: nat, b: nat)
    requires b > 0
    ensures a <= CeilDiv(a, b) * b
  {
    DivModIdentity(b, a + b - 1);
  }

  lemma RemainderBelow(t: nat, m: nat, b: nat)
    requires t < b
    ensures t * m + m <= m * b
  {
    MulMono(t + 1, b, m, m);
    assert (t + 1) * m == t * m + m;
  }

  lemma NextMultiple(a: nat, k: nat, m: nat, b: nat)
    requires a <= k * b
    ensures a * m <= k * (m * b) && (k + 1) * (m * b) == k * (m * b) + m * b
  {
    MulMono(a, k * b, m, m);
    assert (k * b) * m == k * (m * b);
  }

  lemma CutBound(t: nat, a: nat, r: nat, m: nat, b: nat)
    requires t < b && r < m
    ensures 0 <= a * r && m * b > 0 && (t * m + a * r) / (m * b) <= CeilDiv(a, b)
  {
    hide CeilDiv;
    MulMono(1, m, 1, b);
    MulMono(0, a, 0, r);
    MulMono(0, t, 0, m);
    MulMono(a, a, r, m);
    CeilDivCovers(a, b);
    RemainderBelow(t, m, b);
    NextMultiple(a, CeilDiv(a, b), m, b);
    BelowMultiple(t * m + a * r, CeilDiv(a, b) + 1, m * b);
  }

  lemma BelowMultiple(x: nat, k: nat, d: nat)
    requires d > 0 && x < k * d
    ensures x / d < k
  {
    DivModIdentity(d, x);
    if x / d >= k {
      MulMono(k, x / d, d, d);
    }
  }

  /** Price digits beyond the eighth that the integer path drops. */
  function DroppedDigits(price: Decimal): nat
    requires price.coefficient >= 0
  {
    if price.exponent >= -8 then 0
    else
      PowerPositive(10, -8 - price.exponent);
      price.coefficient % Power(10, -8 - price.exponent)
  }

  /** Below eight decimals the decimal path divides once. */
  lemma UsdCut(amount: nat, decimals: int, price: Decimal)
    requires price.coefficient >= 0 && price.exponent < -8
    ensures var a, m := NormalizedAmount(amount, decimals), Power(10, -8 - price.exponent);
            && m > 0 && m * UNITS > 0 && a >= 0 && a * price.coefficient >= 0
            && UsdUnits(amount, decimals, price) == (a * price.coefficient) / (m * UNITS)
  {
    hide UsdUnits, NormalizedAmount, Power;
    UsdIsScale(amount, decimals, price);
    NormalizedNatural(amount, decimals);
    PowersOfTen();
    PowerPositive(10, -8 - price.exponent);
    PowerAdd(10, -8 - price.exponent, 8);
    MulMono(1, Power(10, -8 - price.exponent), 1, UNITS);
  }

  /** By how much the decimal path is ahead, exactly: the remainder of the integer division and the
      dropped price digits together. */
  lemma DifferenceIs(amount: nat, decimals: int, price: Decimal)
    requires price.coefficient >= 0 && price.exponent < -8
    ensures var a, n, m := NormalizedAmount(amount, decimals), NotionalUnits(price), Power(10, -8 - price.exponent);
            && a >= 0 && n >= 0 && m * UNITS > 0
            && UsdUnits(amount, decimals, price) - VolumeUnits(amount, decimals, price) ==
               ((a * n) % UNITS * m + a * DroppedDigits(price)) / (m * UNITS)
  {
    hide UsdUnits, NotionalUnits, NormalizedAmount, Power;
    UsdCut(amount, decimals, price);
    NotionalIsScale(price);
    CutTwice(NormalizedAmount(amount, decimals), price.coefficient, Power(10, -8 - price.exponent), UNITS);
  }

  lemma NormalizedNatural(amount: nat, decimals: int)
    ensures NormalizedAmount(amount, decimals) >= amount
  {
    if decimals < 8 {
      PowerPositive(10, 8 - decimals);
      MulMono(amount, amount, 1, Power(10, 8 - decimals));
    }
  }

  /** The two computations agree: the integer volume is never above the stored USD amount and falls
      behind it by at most one unit per started token, and they are equal when the price has at most
      eight decimals. */
  lemma VolumeAgreesWithUsd(amount: nat, decimals: int, price: Decimal)
    requires price.coefficient >= 0
    ensures NormalizedAmount(amount, decimals) >= 0
    ensures 0 <= UsdUnits(amount, decimals, price) - VolumeUnits(amount, decimals, price)
              <= CeilDiv(NormalizedAmount(amount, decimals), UNITS)
    ensures DroppedDigits(price) == 0 ==> UsdUnits(amount, decimals, price) == VolumeUnits(amount, decimals, price)
  {
    NormalizedNatural(amount, decimals);
    var a := NormalizedAmount(amount, decimals);
    if price.exponent >= -8 {
      ShortPriceAgrees(amount, decimals, price);
    } else {
      var n, m, r := NotionalUnits(price), Power(10, -8 - price.exponent), DroppedDigits(price);
      PowerPositive(10, -8 - price.exponent);
      DifferenceIs(amount, decimals, price);
      CutBound((a * n) % UNITS, a, r, m, UNITS);
      NonNegativeQuotient((a * n) % UNITS, a, r, m, UNITS);
      if r == 0 {
        CutBound((a * n) % UNITS, 0, 0, m, UNITS);
        assert CeilDiv(0, UNITS) == 0;
      }
    }
  }

  /** When the two are equal: always for prices of at most eight decimals, and otherwise exactly when
      the division's remainder and the dropped price digits together stay below one unit. */
  lemma VolumeEqualsUsdIff(amount: nat, decimals: int, price: Decimal)
    requires price.coefficient >= 0
    ensures UsdUnits(amount, decimals, price) == VolumeUnits(amount, decimals, price) <==>
              price.exponent >= -8 ||
              (NormalizedAmount(amount, decimals) * NotionalUnits(price)) % UNITS * Power(10, -8 - price.exponent) +
                NormalizedAmount(amount, decimals) * DroppedDigits(price) < Power(10, -8 - price.exponent) * UNITS
  {
    if price.exponent >= -8 {
      ShortPriceAgrees(amount, decimals, price);
    } else {
      var a, n, m, r := NormalizedAmount(amount, decimals), NotionalUnits(price), Power(10, -8 - price.exponent), DroppedDigits(price);
      NormalizedNatural(amount, decimals);
      PowerPositive(10, -8 - price.exponent);
      DifferenceIs(amount, decimals, price);
      MulMono(0, a, 0, r);
      QuotientZeroIff((a * n) % UNITS * m + a * r, m * UNITS);
    }
  }

  lemma QuotientZeroIff(x: int, d: nat)
    requires d > 0
    ensures x >= 0 ==> (x / d == 0 <==> x < d)
  {
  }

  lemma NonNegativeQuotient(t: nat, a: nat, r: nat, m: nat, b: nat)
    requires m > 0 && b > 0
    ensures m * b > 0 && (t * m + a * r) / (m * b) >= 0
  {
    MulMono(1, m, 1, b);
    MulMono(0, t, 0, m);
    MulMono(0, a, 0, r);
  }

  /** The bound is reached: three units of a token at 0.333333339 USD. */
  lemma BoundIsReached()
    ensures var price := Decimal(333333339, -9);
            && NormalizedAmount(3, 8) == 3
            && VolumeUnits(3, 8, price) == 0 && UsdUnits(3, 8, price) == 1 && CeilDiv(3, UNITS) == 1
  {
    var price := Decimal(333333339, -9);
    PowersOfTen();
    NotionalIsScale(price);
    DifferenceIs(3, 8, price);
  }
}
