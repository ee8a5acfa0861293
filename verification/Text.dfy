/** Machine integers and their printed forms, as Go's strconv package defines them. Strings are
    sequences of one-byte characters. */
module Text {
  import opened Numerals
  import opened Wrappers

  const UINT64_BOUND := 0x1_0000_0000_0000_0000
  const INT64_BOUND := 0x8000_0000_0000_0000

  type uint64 = x: int | 0 <= x < UINT64_BOUND
  type byte = x: int | 0 <= x < 256
  type Bytes = seq<byte>

  function DigitChar(d: nat): char
    requires d < 16
  {
    if d < 10 then ('0' as int + d) as char else ('a' as int + d - 10) as char
  }

  /** The digit a character stands for, in either case; None for any other character. */
  function CharDigit(c: char): Option<nat> {
    if '0' <= c <= '9' then Some(c as int - '0' as int)
    else if 'a' <= c <= 'z' then Some(c as int - 'a' as int + 10)
    else if 'A' <= c <= 'Z' then Some(c as int - 'A' as int + 10)
    else None
  }

  function Chars(ds: seq<nat>): (s: string)
    requires forall i :: 0 <= i < |ds| ==> ds[i] < 16
    ensures |s| == |ds|
    ensures forall i :: 0 <= i < |ds| ==> s[i] == DigitChar(ds[i])
  {
    seq(|ds|, i requires 0 <= i < |ds| => DigitChar(ds[i]))
  }

  predicate IsNumeral(b: nat, s: string) {
    forall i :: 0 <= i < |s| ==> CharDigit(s[i]).Some? && CharDigit(s[i]).value < b
  }

  function DigitsOf(b: nat, s: string): (ds: seq<nat>)
    requires IsNumeral(b, s)
    ensures |ds| == |s|
    ensures forall i :: 0 <= i < |s| ==> ds[i] == CharDigit(s[i]).value
    ensures AllBelow(b, ds)
  {
    seq(|s|, i requires 0 <= i < |s| => CharDigit(s[i]).value)
  }

  /** strconv.FormatUint: minimal lower-case numeral, "0" for zero. */
  function FormatUint(n: nat, b: nat): string
    requires 2 <= b <= 16
  {
    if n == 0 then "0" else
      assert AllBelow(b, Digits(b, n)) by { DigitsCanonical(b, n); }
      Chars(Digits(b, n))
  }

  /** strconv.ParseUint with a 64-bit result: a nonempty numeral below 2^64, anything else is an
      error. */
  function ParseUint(s: string, b: nat): Result<uint64>
    requires 2 <= b <= 16
  {
    if s == "" || !IsNumeral(b, s) then Err("invalid syntax")
    else if Value(b, DigitsOf(b, s)) >= UINT64_BOUND then Err("value out of range")
    else Ok(Value(b, DigitsOf(b, s)))
  }

  lemma DigitCharRoundTrip(d: nat)
    requires d < 16
    ensures CharDigit(DigitChar(d)) == Some(d)
    ensures DigitChar(d) in "0123456789abcdef"
    ensures d < 10 ==> '0' <= DigitChar(d) <= '9'
  {
    if d >= 10 {
      assert d == 10 || d == 11 || d == 12 || d == 13 || d == 14 || d == 15;
    }
  }

  /** The characters of a printed number stand for its digits. */
  lemma FormatDigits(n: nat, b: nat)
    requires 2 <= b <= 16
    ensures var s, ds := FormatUint(n, b), if n == 0 then [0] else Digits(b, n);
            && |s| == |ds| > 0 && AllBelow(b, ds)
            && forall i :: 0 <= i < |s| ==> CharDigit(s[i]) == Some(ds[i])
  {
    assert DigitChar(0) == '0';
    hide CharDigit, DigitChar, Digits;
    DigitsCanonical(b, n);
    var ds := if n == 0 then [0] else Digits(b, n);
    forall i | 0 <= i < |ds|
      ensures CharDigit(FormatUint(n, b)[i]) == Some(ds[i])
    {
      DigitCharRoundTrip(ds[i]);
    }
  }

  /** A printed number is a nonempty numeral of its base, and its digits are the number's. */
  lemma FormatShape(n: nat, b: nat)
    requires 2 <= b <= 16
    ensures FormatUint(n, b) != "" && IsNumeral(b, FormatUint(n, b))
    ensures DigitsOf(b, FormatUint(n, b)) == (if n == 0 then [0] else Digits(b, n))
    ensures Value(b, DigitsOf(b, FormatUint(n, b))) == n
  {
    hide CharDigit, FormatUint, Digits;
    FormatDigits(n, b);
    assert DigitsOf(b, FormatUint(n, b)) == if n == 0 then [0] else Digits(b, n);
    if n == 0 {
      assert [0][..0] == [];
    } else {
      ValueOfDigits(b, n);
    }
  }

  /** Every printed number consists of hexadecimal digits, decimal ones in base ten or less. */
  lemma FormatAlphabet(n: nat, b: nat, i: nat)
    requires 2 <= b <= 16 && i < |FormatUint(n, b)|
    ensures FormatUint(n, b)[i] in "0123456789abcdef"
    ensures b <= 10 ==> '0' <= FormatUint(n, b)[i] <= '9'
  {
    DigitsCanonical(b, n);
    if n > 0 {
      DigitCharRoundTrip(Digits(b, n)[i]);
    }
  }

  /** Parsing a printed 64-bit number returns it. */
  lemma ParseFormat(n: nat, b: nat)
    requires 2 <= b <= 16
    ensures n < UINT64_BOUND ==> ParseUint(FormatUint(n, b), b) == Ok(n)
    ensures n >= UINT64_BOUND ==> ParseUint(FormatUint(n, b), b).Err?
  {
    FormatShape(n, b);
  }

  lemma FormatInjective(m: nat, n: nat, b: nat)
    requires 2 <= b <= 16 && FormatUint(m, b) == FormatUint(n, b)
    ensures m == n
  {
    FormatShape(m, b);
    FormatShape(n, b);
  }

  /** Fields joined by a separator that the first field never contains are recovered from the
      joined string. */
  lemma {:induction false} SeparatorSplits(c: char, a: string, x: string, b: string, y: string)
    requires c !in a && c !in b && a + [c] + x == b + [c] + y
    ensures a == b && x == y
  {
    var s := a + [c] + x;
    assert forall k :: 0 <= k < |a| ==> s[k] == a[k] != c;
    assert forall k :: 0 <= k < |b| ==> s[k] == b[k] != c;
    assert s[|a|] == c && s[|b|] == c;
    assert a == s[..|a|] && b == s[..|b|];
    assert x == s[|a| + 1..] && y == s[|b| + 1..];
  }

  lemma DecimalHasNo(c: char, n: nat)
    requires !('0' <= c <= '9')
    ensures c !in FormatUint(n, 10)
  {
    if c in FormatUint(n, 10) {
      var i :| 0 <= i < |FormatUint(n, 10)| && FormatUint(n, 10)[i] == c;
      FormatAlphabet(n, 10, i);
      assert false;
    }
  }

  // ---------------------------------------------------------------- signed numbers

  /** strconv.FormatInt and big.Int.Text. */
  function FormatInt(n: int, b: nat): string
    requires 2 <= b <= 16
  {
    if n < 0 then "-" + FormatUint(-n, b) else FormatUint(n, b)
  }

  predicate IsSigned(s: string) {
    s != "" && (s[0] == '+' || s[0] == '-')
  }

  /** big.Int.SetString: an optional sign and a nonempty numeral of any size. */
  function ParseInteger(s: string, b: nat): Option<int>
    requires 2 <= b <= 16
  {
    var digits := if IsSigned(s) then s[1..] else s;
    if digits == "" || !IsNumeral(b, digits) then None
    else
      var n: int := Value(b, DigitsOf(b, digits));
      Some(if s[0] == '-' then -n else n)
  }

  /** strconv.ParseInt with a 64-bit result: the same texts, as long as the number fits. */
  function ParseInt64(s: string, b: nat): Option<int>
    requires 2 <= b <= 16
  {
    match ParseInteger(s, b)
    case None => None
    case Some(n) => if 0 - INT64_BOUND <= n < INT64_BOUND then Some(n) else None
  }

  /** A numeral reads as its value, with a minus sign in front as the opposite. */
  lemma ParseSigned(digits: string, b: nat)
    requires 2 <= b <= 16 && digits != "" && IsNumeral(b, digits)
    ensures ParseInteger(digits, b) == Some(Value(b, DigitsOf(b, digits)))
    ensures ParseInteger("-" + digits, b) == Some(0 - Value(b, DigitsOf(b, digits)))
  {
    hide Value, DigitsOf;
    assert CharDigit(digits[0]).Some?;
    assert ("-" + digits)[1..] == digits;
  }

  /** Reading a printed integer returns it. */
  lemma ParseFormatInt(n: int, b: nat)
    requires 2 <= b <= 16
    ensures ParseInteger(FormatInt(n, b), b) == Some(n)
  {
    hide ParseInteger, FormatUint, IsNumeral, Value, DigitsOf;
    var m := if n < 0 then -n else n;
    FormatShape(m, b);
    ParseSigned(FormatUint(m, b), b);
  }
}
