/** Positional numerals in an arbitrary base, most significant digit first.

    Every printed number of the services (decimal sequences and chain ids, hexadecimal block
    numbers, base58 payloads) is an instance of these two functions, so their inverse and order
    laws are proved once, for every base. */
module Numerals {

  ghost predicate AllBelow(b: nat, ds: seq<nat>) {
    forall i :: 0 <= i < |ds| ==> ds[i] < b
  }

  /** A numeral without a superfluous leading zero; zero is the empty numeral. */
  ghost predicate Canonical(b: nat, ds: seq<nat>) {
    AllBelow(b, ds) && (ds != [] ==> ds[0] != 0)
  }

  function Value(b: nat, ds: seq<nat>): nat {
    if ds == [] then 0 else Value(b, ds[..|ds| - 1]) * b + ds[|ds| - 1]
  }

  function Digits(b: nat, n: nat): seq<nat>
    requires b >= 2
    decreases n
  {
    if n == 0 then [] else
      assert n / b < n by { QuotientShrinks(b, n); }
      Digits(b, n / b) + [n % b]
  }

  function Power(b: nat, k: nat): nat {
    if k == 0 then 1 else Power(b, k - 1) * b
  }

  lemma QuotientShrinks(b: nat, n: nat)
    requires b >= 2 && n > 0
    ensures n / b < n
  {
    assert n == (n / b) * b + n % b;
    if n / b >= n {
      assert (n / b) * b >= n * 2 by { MulMono(n, n / b, 2, b); }
    }
  }

  lemma MulMono(x: nat, y: nat, p: nat, q: nat)
    requires x <= y && p <= q
    ensures x * p <= y * q
  {
    assert y * q == x * p + (y - x) * p + y * (q - p);
  }

  lemma MultipleIsFar(b: nat, d: int)
    ensures d >= 1 ==> d * b >= b
    ensures d <= -1 ==> d * b + b <= 0
  {
    if d >= 1 {
      MulMono(1, d, b, b);
    } else if d <= -1 {
      MulMono(1, -d, b, b);
      assert (-d) * b == -(d * b);
    }
  }

  lemma DivModUnique(b: nat, q: nat, r: nat)
    requires r < b
    ensures (q * b + r) / b == q && (q * b + r) % b == r
  {
    var n := q * b + r;
    assert n == (n / b) * b + n % b;
    var d := n / b - q;
    assert d * b == r - n % b;
    MultipleIsFar(b, d);
  }

  lemma {:induction false} DigitsCanonical(b: nat, n: nat)
    requires b >= 2
    ensures Canonical(b, Digits(b, n))
    ensures Digits(b, n) == [] <==> n == 0
    decreases n
  {
    if n > 0 {
      QuotientShrinks(b, n);
      DigitsCanonical(b, n / b);
      if n / b == 0 {
        assert n == (n / b) * b + n % b;
        assert Digits(b, n) == [n % b];
      }
    }
  }

  /** Printing then reading gives the number back. */
  lemma {:induction false} ValueOfDigits(b: nat, n: nat)
    requires b >= 2
    ensures Value(b, Digits(b, n)) == n
    decreases n
  {
    if n > 0 {
      QuotientShrinks(b, n);
      ValueOfDigits(b, n / b);
      ValueAppend(b, Digits(b, n / b), n % b);
      DivModIdentity(b, n);
    }
  }

  lemma ValueAppend(b: nat, ds: seq<nat>, d: nat)
    ensures Value(b, ds + [d]) == Value(b, ds) * b + d
  {
    assert (ds + [d])[..|ds|] == ds;
  }

  lemma DivModIdentity(b: nat, n: nat)
    requires b > 0
    ensures n == (n / b) * b + n % b
  {
  }

  lemma {:induction false} ValuePositive(b: nat, ds: seq<nat>)
    requires b >= 2 && Canonical(b, ds) && ds != []
    ensures Value(b, ds) > 0
  {
    var front := ds[..|ds| - 1];
    if front != [] {
      assert front[0] == ds[0];
      ValuePositive(b, front);
      MulMono(1, Value(b, front), 1, b);
    }
  }

  lemma AppendDigit(b: nat, n: nat, d: nat)
    requires b >= 2 && d < b && n * b + d > 0
    ensures Digits(b, n * b + d) == Digits(b, n) + [d]
  {
    DivModUnique(b, n, d);
  }

  lemma {:induction false} CanonicalRoundTrip(b: nat, ds: seq<nat>)
    requires b >= 2 && Canonical(b, ds)
    ensures Digits(b, Value(b, ds)) == ds
  {
    if ds != [] {
      var front, last := ds[..|ds| - 1], ds[|ds| - 1];
      assert Canonical(b, front) by { assert front != [] ==> front[0] == ds[0]; }
      CanonicalRoundTrip(b, front);
      assert ds == front + [last];
      ValueAppend(b, front, last);
      ValuePositive(b, ds);
      AppendDigit(b, Value(b, front), last);
    }
  }

  lemma PowerPositive(b: nat, k: nat)
    requires b >= 1
    ensures Power(b, k) >= 1
  {
    if k > 0 {
      PowerPositive(b, k - 1);
      MulMono(1, Power(b, k - 1), 1, b);
    }
  }

  lemma PowerMono(b: nat, j: nat, k: nat)
    requires b >= 1 && j <= k
    ensures Power(b, j) <= Power(b, k)
    decreases k
  {
    if j < k {
      PowerMono(b, j, k - 1);
      MulMono(Power(b, k - 1), Power(b, k - 1), 1, b);
    }
  }

  /** A numeral of k digits is below b^k. */
  lemma {:induction false} ValueBelow(b: nat, ds: seq<nat>)
    requires b >= 2 && AllBelow(b, ds)
    ensures Value(b, ds) < Power(b, |ds|)
  {
    if ds != [] {
      var front := ds[..|ds| - 1];
      ValueBelow(b, front);
      MulMono(Value(b, front) + 1, Power(b, |front|), b, b);
      assert (Value(b, front) + 1) * b == Value(b, front) * b + b;
    }
  }

  /** A canonical numeral of k digits is at least b^(k-1). */
  lemma {:induction false} ValueAtLeast(b: nat, ds: seq<nat>)
    requires b >= 2 && Canonical(b, ds) && ds != []
    ensures Value(b, ds) >= Power(b, |ds| - 1)
  {
    var front := ds[..|ds| - 1];
    if front == [] {
      assert ds == [ds[0]];
    } else {
      assert front[0] == ds[0];
      ValueAtLeast(b, front);
      MulMono(Power(b, |front| - 1), Value(b, front), b, b);
    }
  }

  /** A longer canonical numeral is the larger number. */
  lemma ShorterIsLess(b: nat, x: seq<nat>, y: seq<nat>)
    requires b >= 2 && AllBelow(b, x) && Canonical(b, y) && |x| < |y|
    ensures Value(b, x) < Value(b, y)
  {
    ValueBelow(b, x);
    PowerMono(b, |x|, |y| - 1);
    ValueAtLeast(b, y);
  }

  /** Lexicographic order, as a comparison of byte strings decides it. */
  predicate LexLess(x: seq<nat>, y: seq<nat>) {
    if y == [] then false
    else if x == [] then true
    else x[0] < y[0] || (x[0] == y[0] && LexLess(x[1..], y[1..]))
  }

  /** Splitting off the leading digit. */
  lemma {:induction false} ValueFromFront(b: nat, ds: seq<nat>)
    requires ds != []
    ensures Value(b, ds) == ds[0] * Power(b, |ds| - 1) + Value(b, ds[1..])
  {
    if |ds| == 1 {
      assert ds[..0] == [];
    } else {
      var front := ds[..|ds| - 1];
      ValueFromFront(b, front);
      assert front[1..] == ds[1..][..|ds| - 2];
      var p, v := Power(b, |front| - 1), Value(b, front[1..]);
      assert (front[0] * p + v) * b == front[0] * (p * b) + v * b by {
        MulRearrange(front[0], p, v, b);
      }
    }
  }

  lemma MulRearrange(c: nat, p: nat, v: nat, b: nat)
    ensures (c * p + v) * b == c * (p * b) + v * b
  {
  }

  /** On numerals of equal length lexicographic order is numeric order. */
  lemma {:induction false} LexIsNumeric(b: nat, x: seq<nat>, y: seq<nat>)
    requires b >= 2 && AllBelow(b, x) && AllBelow(b, y) && |x| == |y|
    ensures LexLess(x, y) <==> Value(b, x) < Value(b, y)
  {
    if x != [] {
      var p := Power(b, |x| - 1);
      ValueFromFront(b, x);
      ValueFromFront(b, y);
      ValueBelow(b, x[1..]);
      ValueBelow(b, y[1..]);
      LexIsNumeric(b, x[1..], y[1..]);
      if x[0] < y[0] {
        LeadingDigitDecides(p, x[0], y[0], Value(b, x[1..]), Value(b, y[1..]));
      } else if y[0] < x[0] {
        LeadingDigitDecides(p, y[0], x[0], Value(b, y[1..]), Value(b, x[1..]));
      }
    }
  }

  lemma LeadingDigitDecides(p: nat, c: nat, d: nat, v: nat, w: nat)
    requires c < d && v < p
    ensures c * p + v < d * p + w
  {
    MulMono(c + 1, d, p, p);
    assert (c + 1) * p == c * p + p;
  }

  /** Leading zeros do not change the value. */
  lemma {:induction false} LeadingZeros(b: nat, z: nat, ds: seq<nat>)
    ensures Value(b, seq(z, _ => 0) + ds) == Value(b, ds)
    decreases z, |ds|
  {
    var zs := seq(z, _ => 0) + ds;
    if ds != [] {
      assert zs[..|zs| - 1] == seq(z, _ => 0) + ds[..|ds| - 1];
      LeadingZeros(b, z, ds[..|ds| - 1]);
    } else if z > 0 {
      assert zs == seq(z, _ => 0);
      assert zs[..|zs| - 1] == seq(z - 1, _ => 0) + [];
      LeadingZeros(b, z - 1, []);
    } else {
      assert zs == ds;
    }
  }
}
