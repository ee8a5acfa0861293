/** Amounts as the parser prints them (parser/processor/processor.go). */
module ParserAmounts {
  import opened Wrappers
  import opened Text
  import opened Codecs
  import opened Numerals
  import opened Vaas
  import opened Tokens
  import opened Addresses
  import opened BigInts
  import opened PriceMath
  import opened Measurements

  datatype StandardizedProperties = StandardizedProperties(
    appIds: seq<string>,
    fromChain: ChainId,
    fromAddress: string,
    toChain: ChainId,
    toAddress: string,
    tokenChain: ChainId,
    tokenAddress: string,
    amount: string,
    feeAddress: string,
    feeChain: ChainId,
    fee: string)

  /** The printed amount: empty whenever something needed is missing or does not parse, otherwise
      the normalized amount in decimal. */
  ghost predicate Transforms(list: seq<TokenMetadata>, chain: ChainId, native: string, amount: string, r: string) {
    if chain != UNSET && native != "" && NativeMetadata(list, chain, native).Some? && ParseInteger(amount, 10).Some?
    then r == FormatInt(NormalizedAmount(ParseInteger(amount, 10).value, NativeMetadata(list, chain, native).value.decimals), 10)
    else r == ""
  }

  lemma EmptyIsNoNumber()
    ensures ParseInteger("", 10) == None
  {
  }

  method TransformAmount(provider: TokenProvider, chain: ChainId, native: string, amount: string) returns (r: string)
    requires provider.Valid()
    ensures Transforms(provider.tokenMetadata, chain, native, amount, r)
  {
    hide ParseInteger, FormatInt, NativeToAddress, ScanByAddress;
    EmptyIsNoNumber();
    if chain == UNSET || native == "" || amount == "" {
      return "";
    }
    var meta := LookupNative(provider, chain, native);
    if meta == None || ParseInteger(amount, 10) == None {
      return "";
    }
    var bigAmount := new BigInt(ParseInteger(amount, 10).value);
    if meta.value.decimals < 8 {
      var factor := new BigInt(Power(10, 8 - meta.value.decimals));
      bigAmount.Mul(bigAmount, factor);
    }
    r := FormatInt(bigAmount.v, 10);
  }

  /** The amount is taken through the token's chain and address, the fee through its own; nothing
      else changes. */
  method TransformStandardizedProperties(provider: TokenProvider, sp: StandardizedProperties) returns (r: StandardizedProperties)
    requires provider.Valid()
    ensures Transforms(provider.tokenMetadata, sp.tokenChain, sp.tokenAddress, sp.amount, r.amount)
    ensures Transforms(provider.tokenMetadata, sp.feeChain, sp.feeAddress, sp.fee, r.fee)
    ensures r == sp.(amount := r.amount, fee := r.fee)
  {
    var amount := TransformAmount(provider, sp.tokenChain, sp.tokenAddress, sp.amount);
    var fee := TransformAmount(provider, sp.feeChain, sp.feeAddress, sp.fee);
    r := StandardizedProperties(sp.appIds, sp.fromChain, sp.fromAddress, sp.toChain, sp.toAddress, sp.tokenChain, sp.tokenAddress,
                                amount, sp.feeAddress, sp.feeChain, fee);
  }

  /** The parser and the volume path normalize alike: for an emitter address that survives
      translation, the amount printed for its native form reads as the amount the volume path leaves
      in a token of that address. */
  lemma ParserAgreesWithVolume(list: seq<TokenMetadata>, emitterChain: ChainId, t: TokenValue, native: string, text: string, r: string)
    requires t.tokenChain == SOLANA || (IsEvm(t.tokenChain) && t.tokenAddress[..12] == seq(12, _ => 0))
    requires TranslateEmitterAddress(t.tokenChain, HexEncode(t.tokenAddress)) == Ok(native)
    requires Measured(emitterChain) && MetadataOf(t, list).Some? && ParseInteger(text, 10) == Some(t.amount)
    requires Transforms(list, t.tokenChain, native, text, r)
    ensures ParseInteger(r, 10) == Some(AmountAfter(emitterChain, t, list))
  {
    hide ParseInteger, FormatInt, TranslateEmitterAddress, NativeToAddress, ScanByAddress, NormalizedAmount;
    TranslatedLookupFindsOriginal(list, t.tokenChain, t.tokenAddress);
    EmptyIsNoAddress(t.tokenChain);
    ParseFormatInt(NormalizedAmount(t.amount, MetadataOf(t, list).value.decimals), 10);
  }

  lemma EmptyIsNoAddress(chain: ChainId)
    ensures NativeToAddress(chain, "").Err?
  {
  }
}
