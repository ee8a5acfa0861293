/** Transaction hashes passed as query parameters (api/types/tx_hash.go). */
module TxHash {
  import opened Wrappers
  import opened Numerals
  import opened Text
  import opened Codecs

  const SUI_MIN_LEN := 43
  const SUI_MAX_LEN := 44
  const ALGORAND_LEN := 52
  const WORMHOLE_MIN_LEN := 64
  const WORMHOLE_MAX_LEN := 66
  const SOLANA_MIN_LEN := 87
  const SOLANA_MAX_LEN := 88

  datatype TxHash = TxHash(hash: string, isWormhole: bool, isSolana: bool)

  function TrimPrefix(s: string, prefix: string): string {
    if prefix <= s then s[|prefix|..] else s
  }

  /** The 32 or 64 bytes a decoder produced, re-encoded; any other length is an error. */
  function Repack(decoded: Result<Bytes>, size: nat, encode: Bytes -> string, isSolana: bool): Result<TxHash> {
    match decoded
    case Err(e) => Err(e)
    case Ok(bs) =>
      if |bs| != size then Err("unexpected number of bytes")
      else Ok(TxHash(encode(bs), !isSolana, isSolana))
  }

  function ParseSolana(value: string): Result<TxHash> {
    Repack(Base58Decode(value), 64, Base58Encode, true)
  }

  function ParseAlgorand(value: string): Result<TxHash> {
    Repack(Base32Decode(value), 32, Base32Encode, false)
  }

  function ParseSui(value: string): Result<TxHash> {
    Repack(Base58Decode(value), 32, Base58Encode, false)
  }

  function Untagged(value: string): string {
    TrimPrefix(TrimPrefix(value, "0x"), "0X")
  }

  function ParseWormhole(value: string): Result<TxHash> {
    Repack(HexDecode(Untagged(value)), 32, HexEncode, false)
  }

  function ParseTxHash(value: string): Result<TxHash> {
    if SOLANA_MIN_LEN <= |value| <= SOLANA_MAX_LEN then ParseSolana(value)
    else if |value| == ALGORAND_LEN then ParseAlgorand(value)
    else if SUI_MIN_LEN <= |value| <= SUI_MAX_LEN then ParseSui(value)
    else if WORMHOLE_MIN_LEN <= |value| <= WORMHOLE_MAX_LEN then ParseWormhole(value)
    else Err("invalid txHash length")
  }

  /** What an accepted string denotes: its encoding and the bytes it stands for. */
  datatype Denotation = Base58(bs: Bytes) | Base32(bs: Bytes) | Hex(bs: Bytes)

  ghost predicate Denotes(value: string, d: Denotation) {
    match d
    case Base58(bs) => Base58Decode(value) == Ok(bs) &&
      ((|bs| == 64 && SOLANA_MIN_LEN <= |value| <= SOLANA_MAX_LEN) ||
       (|bs| == 32 && SUI_MIN_LEN <= |value| <= SUI_MAX_LEN))
    case Base32(bs) => |bs| == 32 && |value| == ALGORAND_LEN && Base32Decode(value) == Ok(bs)
    case Hex(bs) => |bs| == 32 && WORMHOLE_MIN_LEN <= |value| <= WORMHOLE_MAX_LEN && HexDecode(Untagged(value)) == Ok(bs)
  }

  lemma WithoutXUntagged(s: string)
    requires 'x' !in s && 'X' !in s
    ensures Untagged(s) == s
  {
    assert |s| >= 2 ==> s[1] in s;
  }

  lemma PrintedHexIsUntagged(bs: Bytes)
    ensures Untagged(HexEncode(bs)) == HexEncode(bs)
  {
    HexHasNo('x', bs);
    HexHasNo('X', bs);
    WithoutXUntagged(HexEncode(bs));
  }

  lemma PrintedLengths(bs: Bytes)
    requires |bs| == 32
    ensures |Base32Encode(bs)| == ALGORAND_LEN && |HexEncode(bs)| == WORMHOLE_MIN_LEN
  {
    EncodedLength(bs);
  }

  /** A printed hash denotes what the parsed string denoted. */
  lemma PrintPreservesDenotation(value: string, d: Denotation)
    requires ParseTxHash(value).Ok? && Denotes(value, d)
    ensures Denotes(ParseTxHash(value).value.hash, d)
  {
    match d
    case Base58(bs) =>
      Base58EncodeAfterDecode(value);
    case Base32(bs) =>
      Base32RoundTrip(bs);
      PrintedLengths(bs);
    case Hex(bs) =>
      HexRoundTrip(bs);
      PrintedHexIsUntagged(bs);
      PrintedLengths(bs);
  }

  /** ParseTxHash is a canonicaliser: parsing the printed form of an accepted hash succeeds with
      the same text and the same flags. */
  lemma ParseIsCanonical(value: string)
    requires ParseTxHash(value).Ok?
    ensures ParseTxHash(ParseTxHash(value).value.hash) == ParseTxHash(value)
  {
    if |value| == ALGORAND_LEN {
      Base32RoundTrip(Base32Decode(value).value);
      PrintedLengths(Base32Decode(value).value);
    } else if WORMHOLE_MIN_LEN <= |value| <= WORMHOLE_MAX_LEN {
      var bs := HexDecode(Untagged(value)).value;
      HexRoundTrip(bs);
      PrintedHexIsUntagged(bs);
      PrintedLengths(bs);
    } else {
      Base58EncodeAfterDecode(value);
    }
  }

  /** The printed form is a complete key: two accepted strings print alike exactly when they
      denote the same bytes in the same encoding. */
  lemma SameHashIffSameDenotation(a: string, b: string, d: Denotation, e: Denotation)
    requires ParseTxHash(a).Ok? && ParseTxHash(b).Ok? && Denotes(a, d) && Denotes(b, e)
    ensures ParseTxHash(a).value.hash == ParseTxHash(b).value.hash <==> d == e
    ensures d == e ==> ParseTxHash(a) == ParseTxHash(b)
  {
    hide HexDecode, HexEncode, Base58Decode, Base58Encode, Base32Decode, Base32Encode, Untagged;
    PrintPreservesDenotation(a, d);
    PrintPreservesDenotation(b, e);
    DenotationUnique(ParseTxHash(a).value.hash, d);
    if d.Base58? && e.Base58? && d == e {
      Base58EncodeAfterDecode(a);
      Base58EncodeAfterDecode(b);
    }
  }

  /** An accepted hash is a Solana one exactly when it has 87 or 88 characters, and a Wormhole one
      otherwise. */
  lemma FlagsFollowLength(value: string)
    requires ParseTxHash(value).Ok?
    ensures ParseTxHash(value).value.isSolana <==> 87 <= |value| <= 88
    ensures ParseTxHash(value).value.isWormhole <==> !ParseTxHash(value).value.isSolana
  {
    hide HexDecode, HexEncode, Base58Decode, Base58Encode, Base32Decode, Base32Encode, Untagged;
  }

  lemma DenotationUnique(value: string, d: Denotation)
    requires Denotes(value, d)
    ensures forall e :: Denotes(value, e) ==> e == d
  {
  }

  /** A hexadecimal text of 64 characters with at most one tag. */
  ghost predicate TaggedHex(value: string) {
    exists h :: |h| == 64 && (forall i :: 0 <= i < 64 ==> IsHexChar(h[i])) &&
                (value == h || value == "0x" + h || value == "0X" + h)
  }

  /** Hexadecimal hashes: exactly 64 hexadecimal characters with at most one 0x or 0X tag. The two
      trims run one after the other, yet a doubled tag is never accepted. */
  lemma WormholeAccepts(value: string)
    requires WORMHOLE_MIN_LEN <= |value| <= WORMHOLE_MAX_LEN
    ensures ParseTxHash(value).Ok? <==> TaggedHex(value)
  {
    hide HexDecode, HexEncode, Base58Decode, Base58Encode, Base32Decode, Base32Encode;
    var t := Untagged(value);
    HexAccepts(t);
    if ParseTxHash(value).Ok? {
      assert |t| == 64;
      if "0x" <= value {
        assert value == "0x" + value[2..];
        assert |value[2..]| <= 64;
      } else if "0X" <= value {
        assert value == "0X" + value[2..];
      }
    }
    forall h | |h| == 64 && (forall i :: 0 <= i < 64 ==> IsHexChar(h[i])) &&
               (value == h || value == "0x" + h || value == "0X" + h)
      ensures t == h
    {
      assert IsHexChar(h[1]) && h[1] != 'x' && h[1] != 'X';
      if value == "0x" + h {
        assert TrimPrefix(value, "0x") == h;
      } else if value == "0X" + h {
        assert value[1] == 'X';
        assert TrimPrefix(value, "0x") == value;
        assert value[2..] == h;
      } else {
        assert TrimPrefix(value, "0x") == value;
      }
    }
  }

  /** Base32 hashes: exactly the 52-character strings over the upper-case alphabet; the line breaks
      the decoder skips can never make up 32 bytes. */
  lemma AlgorandAccepts(value: string)
    requires |value| == ALGORAND_LEN
    ensures ParseTxHash(value).Ok? <==> IsBase32(value)
  {
    if IsBase32(value) {
      StripKeepsClean(value);
    }
    if Base32Decode(value).Ok? {
      Base32Of32Bytes(value);
    }
  }

  // ---------------------------------------------------------------- acceptance without decoding

  function LeadingOnes(s: string): (z: nat)
    ensures z <= |s|
  {
    if s == "" || s[0] != '1' then 0 else 1 + LeadingOnes(s[1..])
  }

  /** A base58 text that stands for n bytes: its value has as many base-256 digits as remain after one
      byte for each leading one. */
  predicate Base58Fits(s: string, n: nat) {
    && IsBase58(s) && LeadingOnes(s) <= n
    && Value(58, Base58Digits(s)) < Power(256, n - LeadingOnes(s))
    && (LeadingOnes(s) < n ==> Value(58, Base58Digits(s)) >= Power(256, n - LeadingOnes(s) - 1))
  }

  lemma {:induction false} LeadingOnesAreZeros(s: string)
    requires IsBase58(s)
    ensures LeadingZeroCount(Base58Digits(s)) == LeadingOnes(s)
  {
    if s != "" {
      var ds := Base58Digits(s);
      assert ds[0] == 0 <==> s[0] == '1';
      assert Base58Digits(s[1..]) == ds[1..];
      LeadingOnesAreZeros(s[1..]);
    }
  }

  lemma DigitCountIff(b: nat, v: nat, m: nat)
    requires b >= 2
    ensures |Digits(b, v)| == m <==> v < Power(b, m) && (m > 0 ==> v >= Power(b, m - 1))
  {
    hide Digits, Power, Value;
    var ds := Digits(b, v);
    DigitsCanonical(b, v);
    ValueOfDigits(b, v);
    ValueBelow(b, ds);
    if v == 0 {
      PowerPositive(b, 0);
      if m > 0 { PowerPositive(b, m - 1); }
      PowerPositive(b, m);
    } else {
      ValueAtLeast(b, ds);
      if |ds| < m {
        PowerMono(b, |ds|, m - 1);
      } else if m < |ds| {
        PowerMono(b, m, |ds| - 1);
      }
    }
  }

  lemma Base58Yields(s: string, n: nat)
    requires s != ""
    ensures Base58Decode(s).Ok? && |Base58Decode(s).value| == n <==> Base58Fits(s, n)
  {
    hide Power, Digits, Value, LeadingOnes, LeadingZeroCount;
    if IsBase58(s) {
      var z, v := LeadingOnes(s), Value(58, Base58Digits(s));
      LeadingOnesAreZeros(s);
      assert |Base58Decode(s).value| == z + |Digits(256, v)|;
      if z <= n {
        DigitCountIff(256, v, n - z);
      }
    }
  }

  /** Exactly these texts are accepted: by length, base58 texts of 64 or of 32 bytes, base32 texts, and
      hexadecimal ones with at most one tag. */
  lemma AcceptsIff(value: string)
    ensures ParseTxHash(value).Ok? <==>
              || (87 <= |value| <= 88 && Base58Fits(value, 64))
              || (|value| == 52 && IsBase32(value))
              || (43 <= |value| <= 44 && Base58Fits(value, 32))
              || (64 <= |value| <= 66 && TaggedHex(value))
  {
    hide Base58Decode, Base58Encode, Base32Decode, Base32Encode, HexDecode, HexEncode, Base58Fits, IsBase32;
    if value != "" {
      Base58Yields(value, 64);
      Base58Yields(value, 32);
    }
    if |value| == 52 {
      AlgorandAccepts(value);
    }
    if 64 <= |value| <= 66 {
      WormholeAccepts(value);
    }
  }
}
