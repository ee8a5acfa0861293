/** The three text encodings of byte strings used for hashes and addresses: hexadecimal and base32
    (RFC 4648 sections 8 and 6, base32 without padding) and base58. Decoders accept what the Go
    libraries accept: hexadecimal in either case, base32 with line breaks and spare bits, base58
    with any number of leading ones. */
module Codecs {
  import opened Numerals
  import opened Wrappers
  import opened Text

  // ---------------------------------------------------------------- hexadecimal

  function HexEncode(bs: Bytes): (s: string)
    ensures |s| == 2 * |bs|
  {
    if bs == [] then "" else [DigitChar(bs[0] / 16), DigitChar(bs[0] % 16)] + HexEncode(bs[1..])
  }

  predicate IsHexChar(c: char) {
    CharDigit(c).Some? && CharDigit(c).value < 16
  }

  function HexDecode(s: string): (r: Result<Bytes>)
    ensures r.Ok? ==> |s| == 2 * |r.value|
  {
    if s == "" then Ok([])
    else if |s| == 1 then Err("odd length hex string")
    else if !IsHexChar(s[0]) || !IsHexChar(s[1]) then Err("invalid byte")
    else
      match HexDecode(s[2..])
      case Err(e) => Err(e)
      case Ok(rest) => Ok([CharDigit(s[0]).value * 16 + CharDigit(s[1]).value] + rest)
  }

  lemma HexPairValue(x: byte)
    ensures IsHexChar(DigitChar(x / 16)) && IsHexChar(DigitChar(x % 16))
    ensures CharDigit(DigitChar(x / 16)).value * 16 + CharDigit(DigitChar(x % 16)).value == x
  {
    DigitCharRoundTrip(x / 16);
    DigitCharRoundTrip(x % 16);
  }

  lemma HexDecodePair(high: char, low: char, s: string)
    requires IsHexChar(high) && IsHexChar(low) && HexDecode(s).Ok?
    ensures HexDecode([high, low] + s) ==
            Ok([CharDigit(high).value * 16 + CharDigit(low).value] + HexDecode(s).value)
  {
    assert ([high, low] + s)[2..] == s;
  }

  lemma {:induction false} HexRoundTrip(bs: Bytes)
    ensures HexDecode(HexEncode(bs)) == Ok(bs)
  {
    if bs != [] {
      HexRoundTrip(bs[1..]);
      HexPairValue(bs[0]);
      HexDecodePair(DigitChar(bs[0] / 16), DigitChar(bs[0] % 16), HexEncode(bs[1..]));
      assert bs == [bs[0]] + bs[1..];
    }
  }

  lemma HexInjective(a: Bytes, b: Bytes)
    requires HexEncode(a) == HexEncode(b)
    ensures a == b
  {
    HexRoundTrip(a);
    HexRoundTrip(b);
  }

  /** A string decodes exactly when it has even length and consists of hexadecimal characters. */
  lemma {:induction false} HexAccepts(s: string)
    ensures HexDecode(s).Ok? <==> |s| % 2 == 0 && forall i :: 0 <= i < |s| ==> IsHexChar(s[i])
  {
    if |s| >= 2 {
      HexAccepts(s[2..]);
      assert s == [s[0], s[1]] + s[2..];
    }
  }

  lemma {:induction false} HexLowerCase(bs: Bytes, i: nat)
    requires i < |HexEncode(bs)|
    ensures HexEncode(bs)[i] in "0123456789abcdef"
  {
    DigitCharRoundTrip(bs[0] / 16);
    DigitCharRoundTrip(bs[0] % 16);
    if i >= 2 {
      HexLowerCase(bs[1..], i - 2);
    }
  }

  lemma HexHasNo(c: char, bs: Bytes)
    requires c !in "0123456789abcdef"
    ensures c !in HexEncode(bs)
  {
    if c in HexEncode(bs) {
      var i :| 0 <= i < |HexEncode(bs)| && HexEncode(bs)[i] == c;
      HexLowerCase(bs, i);
      assert false;
    }
  }

  // ---------------------------------------------------------------- change of base

  /** Number of leading zero digits. */
  function LeadingZeroCount(ds: seq<nat>): (z: nat)
    ensures z <= |ds|
  {
    if ds == [] || ds[0] != 0 then 0 else 1 + LeadingZeroCount(ds[1..])
  }

  lemma {:induction false} LeadingZeroSplit(ds: seq<nat>)
    ensures ds[..LeadingZeroCount(ds)] == seq(LeadingZeroCount(ds), _ => 0)
    ensures LeadingZeroCount(ds) < |ds| ==> ds[LeadingZeroCount(ds)] != 0
  {
    if ds != [] && ds[0] == 0 {
      LeadingZeroSplit(ds[1..]);
      var z := LeadingZeroCount(ds[1..]);
      assert ds[..1 + z] == [0] + ds[1..][..z];
    }
  }

  lemma {:induction false} LeadingZeroOfSplit(z: nat, ds: seq<nat>)
    requires ds != [] ==> ds[0] != 0
    ensures LeadingZeroCount(seq(z, _ => 0) + ds) == z
    decreases z
  {
    var zs := seq(z, _ => 0) + ds;
    if z > 0 {
      assert zs[1..] == seq(z - 1, _ => 0) + ds;
      LeadingZeroOfSplit(z - 1, ds);
    } else {
      assert zs == ds;
    }
  }

  /** Rewrites a digit string from base b to base c: one zero digit per leading zero digit, then
      the minimal numeral of the value. */
  function ChangeBase(b: nat, c: nat, ds: seq<nat>): (r: seq<nat>)
    requires b >= 2 && c >= 2
    ensures AllBelow(c, r)
  {
    DigitsCanonical(c, Value(b, ds));
    seq(LeadingZeroCount(ds), _ => 0) + Digits(c, Value(b, ds))
  }

  lemma ChangeBaseRoundTrip(b: nat, c: nat, ds: seq<nat>)
    requires b >= 2 && c >= 2 && AllBelow(b, ds)
    ensures ChangeBase(c, b, ChangeBase(b, c, ds)) == ds
  {
    var z, v := LeadingZeroCount(ds), Value(b, ds);
    var rest := ds[z..];
    LeadingZeroSplit(ds);
    assert ds == seq(z, _ => 0) + rest;
    LeadingZeros(b, z, rest);
    CanonicalRoundTrip(b, rest);
    DigitsCanonical(c, v);
    LeadingZeroOfSplit(z, Digits(c, v));
    LeadingZeros(c, z, Digits(c, v));
    ValueOfDigits(c, v);
  }

  // ---------------------------------------------------------------- base58

  function Base58Char(d: nat): char
    requires d < 58
  {
    if d < 9 then ('1' as int + d) as char
    else if d < 17 then ('A' as int + d - 9) as char
    else if d < 22 then ('J' as int + d - 17) as char
    else if d < 33 then ('P' as int + d - 22) as char
    else if d < 44 then ('a' as int + d - 33) as char
    else ('m' as int + d - 44) as char
  }

  function Base58Digit(c: char): Option<nat> {
    if '1' <= c <= '9' then Some(c as int - '1' as int)
    else if 'A' <= c <= 'H' then Some(c as int - 'A' as int + 9)
    else if 'J' <= c <= 'N' then Some(c as int - 'J' as int + 17)
    else if 'P' <= c <= 'Z' then Some(c as int - 'P' as int + 22)
    else if 'a' <= c <= 'k' then Some(c as int - 'a' as int + 33)
    else if 'm' <= c <= 'z' then Some(c as int - 'm' as int + 44)
    else None
  }

  lemma Base58Alphabet(d: nat, c: char)
    ensures d < 58 ==> Base58Digit(Base58Char(d)) == Some(d)
    ensures Base58Digit(c).Some? ==> Base58Digit(c).value < 58 && Base58Char(Base58Digit(c).value) == c
  {
  }

  function Base58Text(ds: seq<nat>): (s: string)
    requires AllBelow(58, ds)
    ensures |s| == |ds|
  {
    seq(|ds|, i requires 0 <= i < |ds| => Base58Char(ds[i]))
  }

  predicate IsBase58(s: string) {
    forall i :: 0 <= i < |s| ==> Base58Digit(s[i]).Some?
  }

  function Base58Digits(s: string): (ds: seq<nat>)
    requires IsBase58(s)
    ensures |ds| == |s|
  {
    seq(|s|, i requires 0 <= i < |s| => Base58Digit(s[i]).value)
  }

  lemma Base58TextInverse(s: string, ds: seq<nat>)
    ensures IsBase58(s) ==> AllBelow(58, Base58Digits(s)) && Base58Text(Base58Digits(s)) == s
    ensures AllBelow(58, ds) ==> IsBase58(Base58Text(ds)) && Base58Digits(Base58Text(ds)) == ds
  {
    forall d: nat | d < 58
      ensures Base58Digit(Base58Char(d)) == Some(d)
    {
      Base58Alphabet(d, ' ');
    }
    forall c: char | Base58Digit(c).Some?
      ensures Base58Digit(c).value < 58 && Base58Char(Base58Digit(c).value) == c
    {
      Base58Alphabet(0, c);
    }
  }

  function AsBytes(ds: seq<nat>): (bs: Bytes)
    requires AllBelow(256, ds)
    ensures bs == ds
  {
    ds
  }

  function Base58Encode(bs: Bytes): string {
    Base58Text(ChangeBase(256, 58, bs))
  }

  function Base58Decode(s: string): Result<Bytes> {
    if s == "" then Err("zero length string")
    else if !IsBase58(s) then Err("invalid base58 digit")
    else Ok(AsBytes(ChangeBase(58, 256, Base58Digits(s))))
  }

  /** Re-encoding a decoded string gives the string back, leading ones included. */
  lemma Base58EncodeAfterDecode(s: string)
    requires Base58Decode(s).Ok?
    ensures Base58Encode(Base58Decode(s).value) == s
  {
    Base58TextInverse(s, []);
    ChangeBaseRoundTrip(58, 256, Base58Digits(s));
  }

  /** Decoding an encoded nonempty byte string gives the bytes back, leading zeros included. */
  lemma Base58DecodeAfterEncode(bs: Bytes)
    requires bs != []
    ensures Base58Decode(Base58Encode(bs)) == Ok(bs)
  {
    var ds := ChangeBase(256, 58, bs);
    Base58TextInverse("", ds);
    ChangeBaseRoundTrip(256, 58, bs);
    assert ChangeBase(58, 256, []) == [];
    assert Base58Encode(bs) != "";
  }

  // ---------------------------------------------------------------- base32

  /** The digits are those of the published alphabets. */
  lemma Base32Letters(d: nat)
    ensures d < 16 ==> DigitChar(d) == "0123456789abcdef"[d]
    ensures d < 32 ==> Base32Char(d) == "ABCDEFGHIJKLMNOPQRSTUVWXYZ234567"[d]
  {
  }

  /** The same for base58, in three parts. */
  lemma Base58Letters(d: nat)
    ensures d < 17 ==> Base58Char(d) == "123456789ABCDEFGH"[d]
    ensures d < 16 ==> Base58Char(17 + d) == "JKLMNPQRSTUVWXYZ"[d]
    ensures d < 25 ==> Base58Char(33 + d) == "abcdefghijkmnopqrstuvwxyz"[d]
  {
  }

  function Base32Char(d: nat): char
    requires d < 32
  {
    if d < 26 then ('A' as int + d) as char else ('2' as int + d - 26) as char
  }

  function Base32Digit(c: char): Option<nat> {
    if 'A' <= c <= 'Z' then Some(c as int - 'A' as int)
    else if '2' <= c <= '7' then Some(c as int - '2' as int + 26)
    else None
  }

  function Base32Text(ds: seq<nat>): (s: string)
    requires AllBelow(32, ds)
    ensures |s| == |ds|
  {
    seq(|ds|, i requires 0 <= i < |ds| => Base32Char(ds[i]))
  }

  predicate IsBase32(s: string) {
    forall i :: 0 <= i < |s| ==> Base32Digit(s[i]).Some?
  }

  function Base32Digits(s: string): (ds: seq<nat>)
    requires IsBase32(s)
    ensures |ds| == |s| && AllBelow(32, ds)
  {
    seq(|s|, i requires 0 <= i < |s| => Base32Digit(s[i]).value)
  }

  lemma Base32TextInverse(ds: seq<nat>)
    requires AllBelow(32, ds)
    ensures IsBase32(Base32Text(ds)) && Base32Digits(Base32Text(ds)) == ds
  {
    forall d: nat | d < 32
      ensures Base32Digit(Base32Char(d)) == Some(d)
    {
    }
  }

  /** Eight 5-bit digits of a 5-byte block; missing bytes count as zero. */
  function Block32(b0: byte, b1: byte, b2: byte, b3: byte, b4: byte): (ds: seq<nat>)
    ensures |ds| == 8 && AllBelow(32, ds)
  {
    [b0 / 8, (b0 % 8) * 4 + b1 / 64, (b1 / 2) % 32, (b1 % 2) * 16 + b2 / 16,
     (b2 % 16) * 2 + b3 / 128, (b3 / 4) % 32, (b3 % 4) * 8 + b4 / 32, b4 % 32]
  }

  function ByteOrZero(bs: Bytes, i: nat): byte {
    if i < |bs| then bs[i] else 0
  }

  /** Digits that carry data when a last block has n bytes. */
  function LastDigits(n: nat): (k: nat)
    ensures k <= 7
  {
    match n
    case 0 => 0
    case 1 => 2
    case 2 => 4
    case 3 => 5
    case _ => 7
  }

  /** The digits of a byte string, the last block cut to the digits that carry data. */
  function Regroup8To5(bs: Bytes): (ds: seq<nat>)
    ensures AllBelow(32, ds)
  {
    if |bs| >= 5 then Block32(bs[0], bs[1], bs[2], bs[3], bs[4]) + Regroup8To5(bs[5..])
    else Block32(ByteOrZero(bs, 0), ByteOrZero(bs, 1), ByteOrZero(bs, 2), ByteOrZero(bs, 3), 0)[..LastDigits(|bs|)]
  }

  function Bytes0(d: seq<nat>): byte
    requires |d| >= 2 && AllBelow(32, d)
  {
    d[0] * 8 + d[1] / 4
  }

  function Bytes1(d: seq<nat>): byte
    requires |d| >= 4 && AllBelow(32, d)
  {
    (d[1] % 4) * 64 + d[2] * 2 + d[3] / 16
  }

  function Bytes2(d: seq<nat>): byte
    requires |d| >= 5 && AllBelow(32, d)
  {
    (d[3] % 16) * 16 + d[4] / 2
  }

  function Bytes3(d: seq<nat>): byte
    requires |d| >= 7 && AllBelow(32, d)
  {
    (d[4] % 2) * 128 + d[5] * 4 + d[6] / 8
  }

  function Bytes4(d: seq<nat>): byte
    requires |d| >= 8 && AllBelow(32, d)
  {
    (d[6] % 8) * 32 + d[7]
  }

  /** The bytes of a digit string. A last block of one, three or six digits yields no byte: the
      decoder has no case for those lengths. Spare low bits of a last block are dropped. */
  function Regroup5To8(d: seq<nat>): Bytes
    requires AllBelow(32, d)
  {
    if |d| >= 8 then [Bytes0(d), Bytes1(d), Bytes2(d), Bytes3(d), Bytes4(d)] + Regroup5To8(d[8..])
    else if |d| == 7 then [Bytes0(d), Bytes1(d), Bytes2(d), Bytes3(d)]
    else if |d| == 5 then [Bytes0(d), Bytes1(d), Bytes2(d)]
    else if |d| == 4 then [Bytes0(d), Bytes1(d)]
    else if |d| == 2 then [Bytes0(d)]
    else []
  }

  lemma BlockInverse0(b0: byte, b1: byte)
    ensures (b0 / 8) * 8 + ((b0 % 8) * 4 + b1 / 64) / 4 == b0
  {
  }

  lemma BlockInverse1(b0: byte, b1: byte, b2: byte)
    ensures (((b0 % 8) * 4 + b1 / 64) % 4) * 64 + ((b1 / 2) % 32) * 2 + ((b1 % 2) * 16 + b2 / 16) / 16 == b1
  {
    assert ((b0 % 8) * 4 + b1 / 64) % 4 == b1 / 64;
    assert ((b1 % 2) * 16 + b2 / 16) / 16 == b1 % 2;
    assert (b1 / 2) % 32 == b1 / 2 - 32 * (b1 / 64);
  }

  lemma BlockInverse2(b1: byte, b2: byte, b3: byte)
    ensures (((b1 % 2) * 16 + b2 / 16) % 16) * 16 + ((b2 % 16) * 2 + b3 / 128) / 2 == b2
  {
  }

  lemma BlockInverse3(b2: byte, b3: byte, b4: byte)
    ensures (((b2 % 16) * 2 + b3 / 128) % 2) * 128 + ((b3 / 4) % 32) * 4 + ((b3 % 4) * 8 + b4 / 32) / 8 == b3
  {
    assert ((b2 % 16) * 2 + b3 / 128) % 2 == b3 / 128;
    assert ((b3 % 4) * 8 + b4 / 32) / 8 == b3 % 4;
    assert (b3 / 4) % 32 == b3 / 4 - 32 * (b3 / 128);
  }

  lemma BlockInverse4(b3: byte, b4: byte)
    ensures (((b3 % 4) * 8 + b4 / 32) % 8) * 32 + b4 % 32 == b4
  {
  }

  lemma BlockInverse(b0: byte, b1: byte, b2: byte, b3: byte, b4: byte)
    ensures var d := Block32(b0, b1, b2, b3, b4);
            Bytes0(d) == b0 && Bytes1(d) == b1 && Bytes2(d) == b2 && Bytes3(d) == b3 && Bytes4(d) == b4
  {
    BlockInverse0(b0, b1);
    BlockInverse1(b0, b1, b2);
    BlockInverse2(b1, b2, b3);
    BlockInverse3(b2, b3, b4);
    BlockInverse4(b3, b4);
  }

  lemma DecodeBlock(b0: byte, b1: byte, b2: byte, b3: byte, b4: byte, rest: seq<nat>)
    requires AllBelow(32, rest)
    ensures Regroup5To8(Block32(b0, b1, b2, b3, b4) + rest) == [b0, b1, b2, b3, b4] + Regroup5To8(rest)
  {
    var block := Block32(b0, b1, b2, b3, b4);
    var d := block + rest;
    assert d[8..] == rest;
    assert forall i :: 0 <= i < 8 ==> d[i] == block[i];
    BlockInverse(b0, b1, b2, b3, b4);
  }

  lemma DecodeCut(block: seq<nat>, bs: Bytes)
    requires |block| == 8 && AllBelow(32, block) && |bs| < 5
    requires Bytes0(block) == ByteOrZero(bs, 0) && Bytes1(block) == ByteOrZero(bs, 1)
    requires Bytes2(block) == ByteOrZero(bs, 2) && Bytes3(block) == ByteOrZero(bs, 3)
    ensures Regroup5To8(block[..LastDigits(|bs|)]) == bs
  {
  }

  lemma DecodeLastBlock(bs: Bytes)
    requires |bs| < 5
    ensures Regroup5To8(Regroup8To5(bs)) == bs
  {
    var b0, b1, b2, b3 := ByteOrZero(bs, 0), ByteOrZero(bs, 1), ByteOrZero(bs, 2), ByteOrZero(bs, 3);
    BlockInverse(b0, b1, b2, b3, 0);
    DecodeCut(Block32(b0, b1, b2, b3, 0), bs);
  }

  lemma {:induction false} RegroupInverse(bs: Bytes)
    ensures Regroup5To8(Regroup8To5(bs)) == bs
  {
    if |bs| >= 5 {
      RegroupInverse(bs[5..]);
      DecodeBlock(bs[0], bs[1], bs[2], bs[3], bs[4], Regroup8To5(bs[5..]));
      assert bs == [bs[0], bs[1], bs[2], bs[3], bs[4]] + bs[5..];
    } else {
      DecodeLastBlock(bs);
    }
  }

  function StripLineBreaks(s: string): (r: string)
    ensures |r| <= |s|
    ensures |r| == |s| ==> r == s
  {
    if s == "" then ""
    else if s[0] == '\r' || s[0] == '\n' then StripLineBreaks(s[1..])
    else [s[0]] + StripLineBreaks(s[1..])
  }

  function Base32Encode(bs: Bytes): string {
    Base32Text(Regroup8To5(bs))
  }

  function Base32Decode(s: string): Result<Bytes> {
    var t := StripLineBreaks(s);
    if IsBase32(t) then Ok(Regroup5To8(Base32Digits(t))) else Err("illegal base32 data")
  }

  lemma {:induction false} StripKeepsClean(s: string)
    requires IsBase32(s)
    ensures StripLineBreaks(s) == s
  {
    if s != "" {
      assert Base32Digit(s[0]).Some?;
      StripKeepsClean(s[1..]);
    }
  }

  lemma Base32RoundTrip(bs: Bytes)
    ensures Base32Decode(Base32Encode(bs)) == Ok(bs)
  {
    Base32TextInverse(Regroup8To5(bs));
    StripKeepsClean(Base32Encode(bs));
    RegroupInverse(bs);
  }

  lemma {:induction false} EncodedLength(bs: Bytes)
    ensures |Regroup8To5(bs)| == (8 * |bs| + 4) / 5
  {
    if |bs| >= 5 { EncodedLength(bs[5..]); }
  }

  lemma DecodedBlockLength(d: seq<nat>)
    requires AllBelow(32, d)
    ensures |d| >= 8 ==> |Regroup5To8(d)| == 5 + |Regroup5To8(d[8..])|
    ensures |d| < 8 ==> |Regroup5To8(d)| <= 5 * |d| / 8 && (|d| == 4 ==> |Regroup5To8(d)| == 2)
  {
    hide Bytes0, Bytes1, Bytes2, Bytes3, Bytes4;
  }

  lemma EightMore(n: nat)
    ensures 5 * (n + 8) / 8 == 5 * n / 8 + 5 && (n + 8) / 8 == n / 8 + 1 && (n + 8) % 8 == n % 8
  {
  }

  lemma {:induction false} DecodedLength(d: seq<nat>)
    requires AllBelow(32, d)
    ensures |Regroup5To8(d)| <= 5 * |d| / 8
    ensures |d| % 8 == 4 ==> |Regroup5To8(d)| == 5 * (|d| / 8) + 2
  {
    DecodedBlockLength(d);
    hide Regroup5To8;
    if |d| >= 8 {
      DecodedLength(d[8..]);
      EightMore(|d[8..]|);
      assert |d| == |d[8..]| + 8;
    }
  }

  /** Among strings of at most 52 characters only clean ones of exactly 52 decode to 32 bytes. */
  lemma Base32Of32Bytes(s: string)
    requires |s| <= 52 && Base32Decode(s).Ok?
    ensures |Base32Decode(s).value| == 32 <==> |s| == 52 && IsBase32(s)
  {
    var t := StripLineBreaks(s);
    if IsBase32(t) { DecodedLength(Base32Digits(t)); }
    if IsBase32(s) { StripKeepsClean(s); }
  }
}
