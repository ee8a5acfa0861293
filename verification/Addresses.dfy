/** Translation of emitter addresses to native addresses and back (common/domain/chainid.go), for
    Solana and the EVM-style chains. */
module Addresses {
  import opened Wrappers
  import opened Text
  import opened Codecs
  import opened Vaas
  import opened Tokens

  const SOLANA: ChainId := 1
  const ETHEREUM: ChainId := 2
  const BSC: ChainId := 4
  const POLYGON: ChainId := 5
  const AVALANCHE: ChainId := 6
  const OASIS: ChainId := 7
  const AURORA: ChainId := 9
  const FANTOM: ChainId := 10
  const KARURA: ChainId := 11
  const ACALA: ChainId := 12
  const KLAYTN: ChainId := 13
  const CELO: ChainId := 14
  const MOONBEAM: ChainId := 16
  const ARBITRUM: ChainId := 23
  const OPTIMISM: ChainId := 24
  const BASE: ChainId := 30

  predicate IsEvm(chain: ChainId) {
    chain in {ETHEREUM, BASE, BSC, POLYGON, AVALANCHE, OASIS, AURORA, FANTOM, KARURA, ACALA, KLAYTN, CELO, MOONBEAM, ARBITRUM, OPTIMISM}
  }

  function TranslateEmitterAddress(chain: ChainId, address: string): Result<string> {
    match HexDecode(address)
    case Err(e) => Err(e)
    case Ok(bs) =>
      if |bs| != 32 then Err("expected emitter address length to be 32")
      else if chain == SOLANA then Ok(Base58Encode(bs))
      else if IsEvm(chain) then Ok("0x" + HexEncode(bs[12..]))
      else Err("chain is not part of this model")
  }

  function DecodeNativeAddressToHex(chain: ChainId, address: string): Result<string> {
    if chain == SOLANA then
      match Base58Decode(address)
      case Err(e) => Err(e)
      case Ok(bs) => Ok(HexEncode(bs))
    else if IsEvm(chain) then Ok(address)
    else Err("chain is not part of this model")
  }

  /** Left padding to 32 bytes. */
  function Padded(bs: Bytes): Address
    requires |bs| <= 32
  {
    seq(32 - |bs|, _ => 0) + bs
  }

  /** The Wormhole SDK's StringToAddress: an optional 0x, at most 32 bytes, left-padded. */
  function StringToAddress(value: string): Result<Address> {
    if |value| < 2 then Err("value must be at least 1 byte")
    else
      var text := if "0x" <= value then value[2..] else value;
      match HexDecode(text)
      case Err(e) => Err(e)
      case Ok(bs) =>
        if |bs| > 32 then Err("value must be no more than 32 bytes")
        else Ok(Padded(bs))
  }

  /** The 32-byte address a native address stands for. */
  function NativeToAddress(chain: ChainId, native: string): Result<Address> {
    match DecodeNativeAddressToHex(chain, native)
    case Err(e) => Err(e)
    case Ok(text) => StringToAddress(text)
  }

  lemma TaggedTextIsAddress(text: string, bs: Bytes)
    requires HexDecode(text) == Ok(bs) && |bs| <= 32
    ensures StringToAddress("0x" + text) == Ok(Padded(bs))
  {
    hide HexDecode, Padded;
    assert ("0x" + text)[2..] == text;
  }

  lemma TaggedHexIsAddress(bs: Bytes)
    requires |bs| <= 32
    ensures StringToAddress("0x" + HexEncode(bs)) == Ok(Padded(bs))
  {
    hide HexEncode, HexDecode, StringToAddress;
    HexRoundTrip(bs);
    TaggedTextIsAddress(HexEncode(bs), bs);
  }

  lemma PlainHexIsAddress(bs: Address)
    ensures StringToAddress(HexEncode(bs)) == Ok(bs)
  {
    HexHasNo('x', bs);
    assert HexEncode(bs)[1] in HexEncode(bs);
    HexRoundTrip(bs);
    assert seq(0, _ => 0) + bs == bs;
  }

  /** Exactly the texts of 64 hexadecimal characters, in either case, are translated; texts of the same
      bytes translate alike, and of different bytes alike only where an EVM chain cuts them off. */
  lemma TranslateAcceptsIff(chain: ChainId, x: string, y: string)
    requires chain == SOLANA || IsEvm(chain)
    ensures TranslateEmitterAddress(chain, x).Ok? <==> |x| == 64 && forall i :: 0 <= i < 64 ==> IsHexChar(x[i])
    ensures TranslateEmitterAddress(chain, x).Ok? && TranslateEmitterAddress(chain, y).Ok? ==>
              (TranslateEmitterAddress(chain, x) == TranslateEmitterAddress(chain, y) <==>
               if chain == SOLANA then HexDecode(x) == HexDecode(y) else HexDecode(x).value[12..] == HexDecode(y).value[12..])
  {
    HexAccepts(x);
    hide HexDecode, HexEncode, Base58Encode, Base58Decode;
    if TranslateEmitterAddress(chain, x).Ok? && TranslateEmitterAddress(chain, y).Ok? {
      var a, b := HexDecode(x).value, HexDecode(y).value;
      if chain == SOLANA {
        Base58DecodeAfterEncode(a);
        Base58DecodeAfterEncode(b);
      } else if "0x" + HexEncode(a[12..]) == "0x" + HexEncode(b[12..]) {
        assert HexEncode(a[12..]) == ("0x" + HexEncode(a[12..]))[2..];
        assert HexEncode(b[12..]) == ("0x" + HexEncode(b[12..]))[2..];
        HexInjective(a[12..], b[12..]);
      }
    }
  }

  /** The hexadecimal form of a native address: on Solana the decoded bytes without a tag, on an EVM chain
      the text itself. */
  lemma DecodedText(chain: ChainId, native: string)
    ensures chain == SOLANA ==>
              && (DecodeNativeAddressToHex(chain, native).Ok? <==> Base58Decode(native).Ok?)
              && (Base58Decode(native).Ok? ==>
                    && HexDecode(DecodeNativeAddressToHex(chain, native).value) == Base58Decode(native)
                    && 'x' !in DecodeNativeAddressToHex(chain, native).value)
    ensures IsEvm(chain) ==> DecodeNativeAddressToHex(chain, native) == Ok(native)
  {
    hide HexDecode, HexEncode, Base58Decode;
    if chain == SOLANA && Base58Decode(native).Ok? {
      HexRoundTrip(Base58Decode(native).value);
      HexHasNo('x', Base58Decode(native).value);
    }
  }

  lemma TaggedText(bs: Bytes)
    ensures var text := "0x" + HexEncode(bs);
            && text[..2] == "0x" && HexDecode(text[2..]) == Ok(bs)
            && forall i :: 2 <= i < |text| ==> '0' <= text[i] <= '9' || 'a' <= text[i] <= 'f'
  {
    hide HexEncode, HexDecode;
    var text := "0x" + HexEncode(bs);
    HexRoundTrip(bs);
    assert text[2..] == HexEncode(bs);
    forall i | 2 <= i < |text|
      ensures '0' <= text[i] <= '9' || 'a' <= text[i] <= 'f'
    {
      HexLowerCase(bs, i - 2);
    }
  }

  /** The native text: on Solana base58 of all 32 bytes, on an EVM chain "0x" and the last twenty bytes in
      40 lower-case hexadecimal digits. */
  lemma TranslatedText(chain: ChainId, x: string)
    requires (chain == SOLANA || IsEvm(chain)) && TranslateEmitterAddress(chain, x).Ok?
    ensures var text := TranslateEmitterAddress(chain, x).value;
            && (chain == SOLANA ==> Base58Decode(text) == HexDecode(x))
            && (IsEvm(chain) ==>
                  && |text| == 42 && text[..2] == "0x" && HexDecode(text[2..]) == Ok(HexDecode(x).value[12..])
                  && forall i :: 2 <= i < 42 ==> '0' <= text[i] <= '9' || 'a' <= text[i] <= 'f')
  {
    var bs := HexDecode(x).value;
    hide HexDecode, HexEncode, Base58Encode, Base58Decode;
    if chain == SOLANA {
      Base58DecodeAfterEncode(bs);
    } else {
      TaggedText(bs[12..]);
    }
  }

  /** Translating an emitter address and reading the native form back recovers it: always on Solana,
      and on an EVM chain exactly when its first twelve bytes are zero, since they are cut off. */
  lemma TranslateRoundTripIff(chain: ChainId, address: Address)
    requires chain == SOLANA || IsEvm(chain)
    ensures TranslateEmitterAddress(chain, HexEncode(address)).Ok?
    ensures NativeToAddress(chain, TranslateEmitterAddress(chain, HexEncode(address)).value).Ok?
    ensures NativeToAddress(chain, TranslateEmitterAddress(chain, HexEncode(address)).value) == Ok(address)
            <==> chain == SOLANA || address[..12] == seq(12, _ => 0)
  {
    HexRoundTrip(address);
    if chain == SOLANA {
      Base58DecodeAfterEncode(address);
      PlainHexIsAddress(address);
    } else {
      TaggedHexIsAddress(address[12..]);
      assert address == address[..12] + address[12..];
      var back: seq<byte> := seq(12, _ => 0) + address[12..];
      assert back[..12] == seq(12, _ => 0);
    }
  }

  /** The list entry a native address stands for. */
  function NativeMetadata(list: seq<TokenMetadata>, chain: ChainId, native: string): Option<TokenMetadata> {
    match NativeToAddress(chain, native)
    case Err(_) => None
    case Ok(address) => ScanByAddress(list, chain, HexEncode(address))
  }

  /** The token of a native address: read it back to 32 bytes, print those, look them up
      (parser/processor/processor.go). */
  method LookupNative(provider: TokenProvider, chain: ChainId, native: string) returns (m: Option<TokenMetadata>)
    requires provider.Valid()
    ensures m == NativeMetadata(provider.tokenMetadata, chain, native)
  {
    var decoded := DecodeNativeAddressToHex(chain, native);
    if decoded.Err? {
      return None;
    }
    var address := StringToAddress(decoded.value);
    if address.Err? {
      return None;
    }
    m := provider.GetTokenByAddress(chain, HexEncode(address.value));
  }

  /** The hashed lookup of a translated emitter address finds the last list entry for the original
      emitter address. */
  lemma TranslatedLookupFindsOriginal(list: seq<TokenMetadata>, chain: ChainId, address: Address)
    requires chain == SOLANA || (IsEvm(chain) && address[..12] == seq(12, _ => 0))
    ensures var native := TranslateEmitterAddress(chain, HexEncode(address));
            && native.Ok?
            && NativeToAddress(chain, native.value).Ok?
            && ScanByAddress(list, chain, HexEncode(NativeToAddress(chain, native.value).value)) ==
               ScanByAddress(list, chain, HexEncode(address))
  {
    TranslateRoundTripIff(chain, address);
  }
}
